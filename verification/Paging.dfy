/** Two-level page tables in physical memory, as section 4.3 of volume 3A of the Intel 64
    and IA-32 Architectures Software Developer's Manual has the processor read them, with
    4-KByte pages only. Addresses are page numbers here, an address is page * 4096 + offset. */
module Paging {
  import opened Options
  import opened Words

  const ENTRIES: nat := 1024
  const PAGES: nat := 0x10_0000     // pages of the 32-bit address space

  /** The page frame, and the low twelve bits of the page-table entry. */
  datatype Mapping = Mapping(frame: nat, flags: nat)

  /** mem[f][i] is the i-th 32-bit word of page frame f. */
  ghost predicate Ram(mem: seq<seq<nat>>) {
    forall f :: 0 <= f < |mem| ==> |mem[f]| == ENTRIES && forall i :: 0 <= i < ENTRIES ==> mem[f][i] < LIMIT
  }

  predicate Present(entry: nat) {
    entry % 2 == 1
  }

  function FrameOf(entry: nat): nat {
    entry / 4096
  }

  function Word(mem: seq<seq<nat>>, f: nat, i: nat): nat
    requires Ram(mem) && i < ENTRIES
  {
    if f < |mem| then mem[f][i] else 0
  }

  /** What the processor finds for page v: entry v / 1024 of the directory in frame dir,
      then entry v % 1024 of that table. */
  function Lookup(mem: seq<seq<nat>>, dir: nat, v: nat): Option<Mapping>
    requires Ram(mem) && v < PAGES
  {
    var pde := Word(mem, dir, v / 1024);
    if !Present(pde) then None
    else
      var pte := Word(mem, FrameOf(pde), v % 1024);
      if Present(pte) then Some(Mapping(FrameOf(pte), pte % 4096)) else None
  }

  /** The directory is in frame dir, the table of slot i in frame tables[i]; no frame serves
      twice, and the other slots are empty. */
  ghost predicate Tables(mem: seq<seq<nat>>, dir: nat, tables: map<nat, nat>) {
    && Ram(mem) && dir < |mem|
    && (forall i :: i in tables ==> i < ENTRIES && tables[i] < |mem| && tables[i] != dir)
    && (forall i, j :: i in tables && j in tables && tables[i] == tables[j] ==> i == j)
    && (forall i :: 0 <= i < ENTRIES ==>
        if i in tables then Present(mem[dir][i]) && FrameOf(mem[dir][i]) == tables[i] else mem[dir][i] == 0)
  }

  /** The tables say about each page what flat says. */
  ghost predicate Refines(mem: seq<seq<nat>>, dir: nat, flat: map<nat, Mapping>)
    requires Ram(mem)
  {
    && (forall v :: v in flat ==> v < PAGES)
    && (forall v :: 0 <= v < PAGES ==> Lookup(mem, dir, v) == if v in flat then Some(flat[v]) else None)
  }

  function Put(mem: seq<seq<nat>>, f: nat, i: nat, word: nat): (r: seq<seq<nat>>)
    requires f < |mem| && i < |mem[f]|
    ensures |r| == |mem|
  {
    var frame: seq<nat> := mem[f][i := word];
    mem[f := frame]
  }

  lemma PutRam(mem: seq<seq<nat>>, f: nat, i: nat, word: nat)
    requires Ram(mem) && f < |mem| && i < ENTRIES && word < LIMIT
    ensures Ram(Put(mem, f, i, word))
    ensures forall g, j :: 0 <= j < ENTRIES ==>
      Word(Put(mem, f, i, word), g, j) == if g == f && j == i then word else Word(mem, g, j)
  {
  }

  lemma SamePlace(u: nat, v: nat)
    ensures u / 1024 == v / 1024 && u % 1024 == v % 1024 ==> u == v
  {
  }

  /** A change outside the directory keeps the structure. */
  lemma TablesSame(mem: seq<seq<nat>>, r: seq<seq<nat>>, dir: nat, tables: map<nat, nat>)
    requires Tables(mem, dir, tables) && Ram(r) && |r| == |mem| && r[dir] == mem[dir]
    ensures Tables(r, dir, tables)
  {
  }

  lemma SetEntryAt(mem: seq<seq<nat>>, dir: nat, tables: map<nat, nat>, v: nat, entry: nat, u: nat)
    requires Tables(mem, dir, tables) && v < PAGES && v / 1024 in tables && u < PAGES
    requires entry < LIMIT && Present(entry)
    ensures Ram(Put(mem, tables[v / 1024], v % 1024, entry))
    ensures Lookup(Put(mem, tables[v / 1024], v % 1024, entry), dir, u)
      == if u == v then Some(Mapping(FrameOf(entry), entry % 4096)) else Lookup(mem, dir, u)
  {
    hide Put;
    PutRam(mem, tables[v / 1024], v % 1024, entry);
    SamePlace(u, v);
    assert Word(mem, dir, u / 1024) == mem[dir][u / 1024];
    assert Word(mem, dir, v / 1024) == mem[dir][v / 1024];
  }

  lemma SetEntryTables(mem: seq<seq<nat>>, dir: nat, tables: map<nat, nat>, v: nat, entry: nat)
    requires Tables(mem, dir, tables) && v < PAGES && v / 1024 in tables && entry < LIMIT
    ensures tables[v / 1024] < |mem| && |mem[tables[v / 1024]]| == ENTRIES && Ram(mem)
    ensures Ram(Put(mem, tables[v / 1024], v % 1024, entry))
    ensures Tables(Put(mem, tables[v / 1024], v % 1024, entry), dir, tables)
  {
    PutRam(mem, tables[v / 1024], v % 1024, entry);
    hide Ram, Word;
    TablesSame(mem, Put(mem, tables[v / 1024], v % 1024, entry), dir, tables);
  }

  /** Writing the entry of page v into its table changes the translation of v only. */
  lemma SetEntry(mem: seq<seq<nat>>, dir: nat, tables: map<nat, nat>, flat: map<nat, Mapping>, v: nat, entry: nat)
    requires Tables(mem, dir, tables) && Refines(mem, dir, flat) && v < PAGES && v / 1024 in tables
    requires entry < LIMIT && Present(entry)
    ensures tables[v / 1024] < |mem| && |mem[tables[v / 1024]]| == ENTRIES
    ensures var r := Put(mem, tables[v / 1024], v % 1024, entry);
      Tables(r, dir, tables) && Refines(r, dir, flat[v := Mapping(FrameOf(entry), entry % 4096)])
  {
    hide Tables, Put, Word, Lookup;
    SetEntryTables(mem, dir, tables, v, entry);
    var r := Put(mem, tables[v / 1024], v % 1024, entry);
    forall u | 0 <= u < PAGES
      ensures Lookup(r, dir, u) == if u == v then Some(Mapping(FrameOf(entry), entry % 4096)) else Lookup(mem, dir, u)
    {
      SetEntryAt(mem, dir, tables, v, entry, u);
    }
  }

  /** Clearing a frame that is neither the directory nor a table changes no translation. */
  lemma ClearFrame(mem: seq<seq<nat>>, r: seq<seq<nat>>, dir: nat, tables: map<nat, nat>, flat: map<nat, Mapping>, f: nat)
    requires Tables(mem, dir, tables) && Refines(mem, dir, flat) && Ram(r) && |r| == |mem|
    requires f != dir && forall i :: i in tables ==> tables[i] != f
    requires forall g :: 0 <= g < |mem| && g != f ==> r[g] == mem[g]
    ensures Tables(r, dir, tables) && Refines(r, dir, flat)
  {
    TablesSame(mem, r, dir, tables);
    forall u | 0 <= u < PAGES ensures Lookup(r, dir, u) == Lookup(mem, dir, u) {
      var i := u / 1024;
      assert Word(mem, dir, i) == mem[dir][i] == r[dir][i] == Word(r, dir, i);
    }
  }

  /** A page looks up as before: in the new slot there was no table, and the new one is empty. */
  lemma AddTableAt(mem: seq<seq<nat>>, dir: nat, tables: map<nat, nat>, slot: nat, f: nat, pde: nat, u: nat)
    requires Tables(mem, dir, tables) && slot < ENTRIES && slot !in tables && u < PAGES
    requires f < |mem| && f != dir && forall i :: i in tables ==> tables[i] != f
    requires forall i :: 0 <= i < ENTRIES ==> mem[f][i] == 0
    requires pde < LIMIT && Present(pde) && FrameOf(pde) == f
    ensures |mem[dir]| == ENTRIES && Ram(Put(mem, dir, slot, pde))
    ensures Lookup(Put(mem, dir, slot, pde), dir, u) == Lookup(mem, dir, u)
  {
    hide Put;
    PutRam(mem, dir, slot, pde);
    var i := u / 1024;
    assert Word(mem, dir, i) == mem[dir][i];
    assert Word(mem, f, u % 1024) == 0;
  }

  /** The slot's table is the new one, and no other changes. */
  lemma AddTableTables(mem: seq<seq<nat>>, dir: nat, tables: map<nat, nat>, slot: nat, f: nat, pde: nat)
    requires Tables(mem, dir, tables) && slot < ENTRIES && slot !in tables
    requires f < |mem| && f != dir && forall i :: i in tables ==> tables[i] != f
    requires pde < LIMIT && Present(pde) && FrameOf(pde) == f
    ensures dir < |mem| && |mem[dir]| == ENTRIES && Ram(mem) && Ram(Put(mem, dir, slot, pde))
    ensures Tables(Put(mem, dir, slot, pde), dir, tables[slot := f])
  {
    PutRam(mem, dir, slot, pde);
    hide Ram, Word;
  }

  /** Entering an empty table changes no translation. */
  lemma AddTable(mem: seq<seq<nat>>, dir: nat, tables: map<nat, nat>, flat: map<nat, Mapping>, slot: nat, f: nat, pde: nat)
    requires Tables(mem, dir, tables) && Refines(mem, dir, flat) && slot < ENTRIES && slot !in tables
    requires f < |mem| && f != dir && forall i :: i in tables ==> tables[i] != f
    requires forall i :: 0 <= i < ENTRIES ==> mem[f][i] == 0
    requires pde < LIMIT && Present(pde) && FrameOf(pde) == f
    ensures |mem[dir]| == ENTRIES
    ensures var r := Put(mem, dir, slot, pde);
      Tables(r, dir, tables[slot := f]) && Refines(r, dir, flat)
  {
    hide Tables, Put, Word, Lookup;
    AddTableTables(mem, dir, tables, slot, f, pde);
    var r := Put(mem, dir, slot, pde);
    forall u | 0 <= u < PAGES ensures Lookup(r, dir, u) == Lookup(mem, dir, u) {
      AddTableAt(mem, dir, tables, slot, f, pde, u);
    }
  }

  /** An empty directory maps nothing. */
  lemma EmptyDirectory(mem: seq<seq<nat>>, dir: nat)
    requires Ram(mem) && dir < |mem| && forall i :: 0 <= i < ENTRIES ==> mem[dir][i] == 0
    ensures Tables(mem, dir, map[]) && Refines(mem, dir, map[])
  {
    forall u | 0 <= u < PAGES ensures Lookup(mem, dir, u) == None {
      assert Word(mem, dir, u / 1024) == 0;
    }
  }

  /** The physical address behind a virtual one; None faults. */
  function Translate(mem: seq<seq<nat>>, dir: nat, a: nat): Option<nat>
    requires Ram(mem) && a < LIMIT
  {
    match Lookup(mem, dir, a / 4096)
    case None => None
    case Some(m) => Some(m.frame * 4096 + a % 4096)
  }

  /** Refining a map that differs at one page is translating every address outside that page
      as before, and those in it to the new frame. */
  lemma OnlyThatPage(mem: seq<seq<nat>>, r: seq<seq<nat>>, dir: nat, flat: map<nat, Mapping>, v: nat, m: Mapping, a: nat)
    requires Ram(mem) && Ram(r) && Refines(mem, dir, flat) && Refines(r, dir, flat[v := m]) && a < LIMIT
    ensures Translate(r, dir, a) == if a / 4096 == v then Some(m.frame * 4096 + a % 4096) else Translate(mem, dir, a)
  {
    hide Lookup;
    assert a / 4096 < PAGES;
  }
}
