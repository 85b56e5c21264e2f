/** The buddy system of pmm.c on values: the twelve free lists and the live allocations,
    and what allocation and freeing do to them. Class Pmm.Allocator refines this. */
module Buddy {
  import opened Bits

  const MAX_ORDER: nat := 12

  ghost function Range(a: int, b: int): (r: set<int>)
    ensures forall x :: x in r <==> a <= x < b
    ensures |r| == if a < b then b - a else 0
    decreases b - a
  {
    if a < b then Range(a, b - 1) + {b - 1} else {}
  }

  /** A naturally aligned run of 2^order pages starting at page head. */
  datatype Block = Block(head: nat, order: nat) {
    predicate Has(page: int) {
      head <= page < head + Pow2(order)
    }

    /** All pages of this block are pages of c. */
    predicate Within(c: Block) {
      c.head <= head && head + Pow2(order) <= c.head + Pow2(c.order)
    }

    ghost function Pages(): set<int> {
      Range(head, head + Pow2(order))
    }

    /** The other half of the enclosing run of the next order. */
    function Mate(): Block {
      Block(Xor(head, Pow2(order)), order)
    }

    function Parent(): Block {
      Block(Base(head, order + 1), order + 1)
    }
  }

  /** Pages lo..hi are managed; lists[k] holds the heads of the free blocks of order k, in
      list order; used maps the head of each live allocation to its order. */
  datatype State = State(lo: nat, hi: nat, lists: seq<seq<nat>>, used: map<nat, nat>)

  predicate IsFree(s: State, b: Block) {
    b.order < |s.lists| && b.head in s.lists[b.order]
  }

  predicate IsUsed(s: State, b: Block) {
    b.head in s.used && s.used[b.head] == b.order
  }

  ghost function FreeBlocks(s: State): iset<Block> {
    iset b | IsFree(s, b)
  }

  ghost function UsedBlocks(s: State): iset<Block> {
    iset b | IsUsed(s, b)
  }

  ghost function Live(s: State): iset<Block> {
    FreeBlocks(s) + UsedBlocks(s)
  }

  ghost predicate Covered(blocks: iset<Block>, page: int) {
    exists b :: b in blocks && b.Has(page)
  }

  ghost function Managed(s: State): set<int> {
    Range(s.lo, s.hi)
  }

  ghost function FreePages(s: State): set<int> {
    set x | x in Managed(s) && Covered(FreeBlocks(s), x)
  }

  ghost function UsedPages(s: State): set<int> {
    set x | x in Managed(s) && Covered(UsedBlocks(s), x)
  }

  // ---------------------------------------------------------------- partitions

  ghost predicate Placed(lo: nat, hi: nat, b: Block) {
    b.order < MAX_ORDER && Aligned(b.head, b.order) && lo <= b.head && b.head + Pow2(b.order) <= hi
  }

  ghost predicate Disjoint(b: Block, c: Block) {
    b.head + Pow2(b.order) <= c.head || c.head + Pow2(c.order) <= b.head
  }

  /** The blocks are well placed, disjoint, and cover pages lo..hi exactly. */
  ghost predicate Partition(lo: nat, hi: nat, blocks: iset<Block>) {
    && (forall b :: b in blocks ==> Placed(lo, hi, b))
    && (forall b, c :: b in blocks && c in blocks && b != c ==> Disjoint(b, c))
    && (forall x {:trigger Covered(blocks, x)} :: lo <= x < hi ==> Covered(blocks, x))
  }

  lemma {:induction false} UpperHalfAligned(p: nat, k: nat)
    requires Aligned(p, k + 1)
    ensures Aligned(p + Pow2(k), k) && !Aligned(p + Pow2(k), k + 1)
  {
    if k > 0 {
      UpperHalfAligned(p / 2, k - 1);
    } else {
      assert Base(p, 1) == 2 * Base(p / 2, 0);
      assert Base(p + 1, 1) == 2 * Base((p + 1) / 2, 0);
    }
  }

  /** A block and its mate are the two halves of their common parent. */
  lemma Halves(b: Block)
    requires Aligned(b.head, b.order)
    ensures Aligned(b.Mate().head, b.order) && b.Mate() != b && b.Mate().Mate() == b
    ensures b.Mate().Parent() == b.Parent() && Aligned(b.Parent().head, b.order + 1)
    ensures b.Parent().head == if b.Mate().head < b.head then b.Mate().head else b.head
    ensures b.Within(b.Parent()) && b.Mate().Within(b.Parent())
    ensures b.Parent().Has(b.head) && b.Parent().Has(b.Mate().head)
    ensures b.head == b.Parent().head || b.head == b.Parent().head + Pow2(b.order)
    ensures b.Mate().head == if b.head == b.Parent().head then b.head + Pow2(b.order) else b.Parent().head
  {
    var k := b.order;
    var p := b.Parent().head;
    XorIsBuddy(b.head, k);
    BaseAligned(b.head, k + 1);
    AlignedDown(p, k, k + 1);
    UpperHalfAligned(p, k);
    XorIsBuddy(p, k);
    XorIsBuddy(p + Pow2(k), k);
  }

  /** Aligned blocks never straddle one another. */
  lemma Laminar(b: Block, c: Block, x: nat)
    requires Aligned(b.head, b.order) && Aligned(c.head, c.order) && b.order <= c.order
    requires b.Has(x) && c.Has(x)
    ensures b.Within(c)
    ensures b.order == c.order ==> b == c
  {
    InRun(x, b.head, b.order);
    InRun(x, c.head, c.order);
    BaseNested(x, b.order, c.order);
    var last := b.head + Pow2(b.order) - 1;
    InRun(last, b.head, b.order);
    BaseNested(last, b.order, c.order);
    InRun(last, c.head, c.order);
    InRun(b.head, b.head, b.order);
    BaseNested(b.head, b.order, c.order);
    InRun(b.head, c.head, c.order);
  }

  /** The heart of the allocator's safety: the first page of the mate of a block of a
      partition is never in the interior of another block. It is unmanaged, or it is the
      head of a block of at most the same order. */
  lemma MateIsHead(lo: nat, hi: nat, blocks: iset<Block>, b: Block)
    requires Partition(lo, hi, blocks) && b in blocks
    requires lo <= b.Mate().head < hi
    ensures exists c :: c in blocks && c.head == b.Mate().head && c.order <= b.order
  {
    Halves(b);
    var m := b.Mate();
    assert Covered(blocks, m.head);
    var c :| c in blocks && c.Has(m.head);
    assert b.Has(b.head) && !b.Has(m.head) && m.Has(m.head);
    if c.order > b.order {
      var p := b.Parent();
      Laminar(p, c, m.head);
      assert false;
    } else {
      Laminar(c, m, m.head);
    }
  }

  lemma MergePartition(lo: nat, hi: nat, blocks: iset<Block>, after: iset<Block>, b: Block)
    requires Partition(lo, hi, blocks)
    requires b in blocks && b.Mate() in blocks && b.order + 1 < MAX_ORDER
    requires forall c :: c in after <==> c == b.Parent() || (c in blocks && c != b && c != b.Mate())
    ensures Partition(lo, hi, after)
  {
    Halves(b);
    hide Block.Mate, Block.Parent;
    var m, p := b.Mate(), b.Parent();
    forall x | lo <= x < hi ensures Covered(after, x) {
      assert Covered(blocks, x);
      var c :| c in blocks && c.Has(x);
      assert (if c == b || c == m then p else c) in after;
    }
  }

  lemma SplitPartition(lo: nat, hi: nat, blocks: iset<Block>, after: iset<Block>, b: Block)
    requires Partition(lo, hi, blocks)
    requires Aligned(b.head, b.order) && b.Parent() in blocks
    requires forall c :: c in after <==> c == b || c == b.Mate() || (c in blocks && c != b.Parent())
    ensures Partition(lo, hi, after)
  {
    Halves(b);
    hide Block.Mate, Block.Parent;
    var m, p := b.Mate(), b.Parent();
    forall x | lo <= x < hi ensures Covered(after, x) {
      assert Covered(blocks, x);
      var c :| c in blocks && c.Has(x);
      assert (if c != p then c else if b.Has(x) then b else m) in after;
    }
  }

  // ---------------------------------------------------------------- the invariant

  /** No two halves of an enclosing block are both free. */
  ghost predicate Coalesced(s: State) {
    forall b, c :: IsFree(s, b) && IsFree(s, c) && b.order + 1 < MAX_ORDER ==> c != b.Mate()
  }

  predicate Distinct(ls: seq<nat>) {
    forall i, j :: 0 <= i < j < |ls| ==> ls[i] != ls[j]
  }

  ghost predicate Inv(s: State) {
    && s.lo > 0
    && |s.lists| == MAX_ORDER
    && (forall k :: 0 <= k < MAX_ORDER ==> Distinct(s.lists[k]))
    && Partition(s.lo, s.hi, Live(s))
    && (forall b :: !(IsFree(s, b) && IsUsed(s, b)))
    && Coalesced(s)
  }

  // ---------------------------------------------------------------- the elementary steps

  function IndexOf(ls: seq<nat>, x: nat): (i: nat)
    requires x in ls
    ensures i < |ls| && ls[i] == x
  {
    if ls[0] == x then 0 else 1 + IndexOf(ls[1..], x)
  }

  /** ls without the entry x. */
  function Without(ls: seq<nat>, x: nat): seq<nat>
    requires x in ls
  {
    var i := IndexOf(ls, x);
    ls[..i] + ls[i + 1..]
  }

  lemma WithoutElements(ls: seq<nat>, x: nat)
    requires Distinct(ls) && x in ls
    ensures Distinct(Without(ls, x))
    ensures forall y :: y in Without(ls, x) <==> y in ls && y != x
  {
    var i, r := IndexOf(ls, x), Without(ls, x);
    forall y | y in ls && y != x ensures y in r {
      var j := IndexOf(ls, y);
      assert r[if j < i then j else j - 1] == y;
    }
  }

  /** The first block of list k becomes an allocation. */
  function Take(s: State, k: nat): State
    requires k < |s.lists| && s.lists[k] != []
  {
    s.(lists := s.lists[k := s.lists[k][1..]], used := s.used[s.lists[k][0] := k])
  }

  /** The allocation at h shrinks to order k; its upper half goes onto list k. */
  function Halve(s: State, h: nat, k: nat): State
    requires k < |s.lists|
  {
    s.(lists := s.lists[k := [h + Pow2(k)] + s.lists[k]], used := s.used[h := k])
  }

  /** Allocation b swallows its free mate. */
  function Absorb(s: State, b: Block): State
    requires IsFree(s, b.Mate())
  {
    s.(lists := s.lists[b.order := Without(s.lists[b.order], b.Mate().head)],
       used := (s.used - {b.head})[b.Parent().head := b.order + 1])
  }

  /** Allocation b becomes the first block of its free list. */
  function Release(s: State, b: Block): State
    requires b.order < |s.lists|
  {
    s.(lists := s.lists[b.order := [b.head] + s.lists[b.order]], used := s.used - {b.head})
  }

  lemma LivePlaced(s: State, b: Block)
    requires Inv(s) && (IsFree(s, b) || IsUsed(s, b))
    ensures b in Live(s) && Placed(s.lo, s.hi, b)
  {
  }

  /** A page lies in at most one live block. */
  lemma OneOwner(s: State, b: Block, c: Block, x: int)
    requires Inv(s) && (IsFree(s, b) || IsUsed(s, b)) && (IsFree(s, c) || IsUsed(s, c))
    requires b.Has(x) && c.Has(x)
    ensures b == c
  {
    assert b in Live(s) && c in Live(s);
  }

  lemma HeadsDiffer(s: State, b: Block, c: Block)
    requires Inv(s)
    requires b in Live(s) && c in Live(s)
    requires b.head == c.head
    ensures b == c
  {
    assert b.Has(b.head) && c.Has(b.head);
  }

  lemma TakeKeeps(s: State, k: nat)
    requires Inv(s) && k < MAX_ORDER && s.lists[k] != []
    ensures Inv(Take(s, k))
    ensures s.lists[k][0] !in s.used
  {
    var t := Take(s, k);
    var b := Block(s.lists[k][0], k);
    assert IsFree(s, b);
    if b.head in s.used {
      HeadsDiffer(s, b, Block(b.head, s.used[b.head]));
      assert false;
    }
    var rest := s.lists[k][1..];
    assert s.lists[k] == [b.head] + rest;
    assert forall c :: IsFree(t, c) <==> IsFree(s, c) && c != b;
    assert forall c :: IsUsed(t, c) <==> IsUsed(s, c) || c == b;
    assert Live(t) == Live(s);
  }

  lemma ReleaseKeeps(s: State, b: Block)
    requires Inv(s) && IsUsed(s, b) && b.order < MAX_ORDER
    requires b.order + 1 < MAX_ORDER ==> !IsFree(s, b.Mate())
    ensures Inv(Release(s, b))
  {
    LivePlaced(s, b);
    var t := Release(s, b);
    assert forall c :: IsFree(t, c) <==> IsFree(s, c) || c == b;
    assert forall c :: IsUsed(t, c) <==> IsUsed(s, c) && c != b;
    assert Live(t) == Live(s);
    Halves(b);
    forall c, d | IsFree(t, c) && IsFree(t, d) && c.order + 1 < MAX_ORDER ensures d != c.Mate() {
      if c != b { LivePlaced(s, c); }
      Halves(c);
    }
  }

  lemma HalveKeeps(s: State, h: nat, k: nat)
    requires Inv(s) && IsUsed(s, Block(h, k + 1)) && k + 1 < MAX_ORDER
    ensures Inv(Halve(s, h, k))
    ensures IsUsed(Halve(s, h, k), Block(h, k))
  {
    var t := Halve(s, h, k);
    var p, b, m := Block(h, k + 1), Block(h, k), Block(h + Pow2(k), k);
    assert p in Live(s);
    AlignedDown(h, k, k + 1);
    Halves(b);
    assert b.Parent() == p && b.Mate() == m;
    if b in Live(s) { HeadsDiffer(s, b, p); assert false; }
    if m in Live(s) { OneOwner(s, m, p, m.head); assert false; }
    assert forall c :: IsFree(t, c) <==> IsFree(s, c) || c == m;
    assert forall c :: IsUsed(t, c) <==> (IsUsed(s, c) && c != p) || c == b;
    SplitPartition(s.lo, s.hi, Live(s), Live(t), b);
    forall c, d | IsFree(t, c) && IsFree(t, d) && c.order + 1 < MAX_ORDER ensures d != c.Mate() {
      if c != m { LivePlaced(s, c); }
      Halves(c);
    }
  }

  lemma AbsorbKeeps(s: State, b: Block)
    requires Inv(s) && IsUsed(s, b) && b.order + 1 < MAX_ORDER && IsFree(s, b.Mate())
    ensures Inv(Absorb(s, b))
    ensures IsUsed(Absorb(s, b), b.Parent())
    ensures Absorb(s, b).used - {b.Parent().head} == s.used - {b.head}
  {
    var t := Absorb(s, b);
    var m, p := b.Mate(), b.Parent();
    assert b in Live(s) && m in Live(s);
    Halves(b);
    WithoutElements(s.lists[b.order], m.head);
    if m.head in s.used {
      HeadsDiffer(s, m, Block(m.head, s.used[m.head]));
      assert false;
    }
    assert forall c :: IsFree(t, c) <==> IsFree(s, c) && c != m;
    assert forall c :: IsUsed(t, c) <==> (IsUsed(s, c) && c != b) || c == p;
    if IsFree(s, p) { HeadsDiffer(s, p, if p.head == b.head then b else m); assert false; }
    MergePartition(s.lo, s.hi, Live(s), Live(t), b);
  }

  // ---------------------------------------------------------------- allocation and freeing

  /** The first non-empty list of order at least k. */
  function FirstFit(lists: seq<seq<nat>>, k: nat): (i: nat)
    ensures k <= i || i == |lists|
    ensures i <= |lists|
    ensures i < |lists| ==> lists[i] != []
    ensures forall j :: k <= j < i ==> lists[j] == []
    decreases |lists| - k
  {
    if k >= |lists| then |lists|
    else if lists[k] != [] then k
    else FirstFit(lists, k + 1)
  }

  /** Halve the allocation at h from order i down to order k. */
  function Carve(s: State, h: nat, i: nat, k: nat): State
    requires i <= |s.lists|
    decreases i
  {
    if i <= k then s else Carve(Halve(s, h, i - 1), h, i - 1, k)
  }

  /** Allocation of order k: the new state and the head page, or 0 for failure. */
  function Alloc(s: State, k: nat): (State, nat) {
    var i := FirstFit(s.lists, k);
    if i == |s.lists| then (s, 0)
    else (Carve(Take(s, i), s.lists[i][0], i, k), s.lists[i][0])
  }

  /** Freeing b: merge with free mates as far as possible, then release. */
  function Free(s: State, b: Block): State
    requires b.order < MAX_ORDER == |s.lists|
    decreases MAX_ORDER - b.order
  {
    if b.order + 1 < MAX_ORDER && IsFree(s, b.Mate()) then Free(Absorb(s, b), b.Parent())
    else Release(s, b)
  }

  lemma {:induction false} CarveKeeps(s: State, h: nat, i: nat, k: nat)
    requires Inv(s) && k <= i < MAX_ORDER && IsUsed(s, Block(h, i))
    ensures Inv(Carve(s, h, i, k)) && IsUsed(Carve(s, h, i, k), Block(h, k))
    ensures Carve(s, h, i, k).used == s.used[h := k]
    ensures Carve(s, h, i, k).lo == s.lo && Carve(s, h, i, k).hi == s.hi
    decreases i
  {
    if i > k {
      HalveKeeps(s, h, i - 1);
      CarveKeeps(Halve(s, h, i - 1), h, i - 1, k);
    }
  }

  /** Allocation keeps the invariant and adds exactly one live allocation, of the order
      asked for, at a head that was not in use. */
  lemma AllocKeeps(s: State, k: nat)
    requires Inv(s)
    ensures var (t, h) := Alloc(s, k);
      && Inv(t) && t.lo == s.lo && t.hi == s.hi
      && (h == 0 ==> t == s)
      && (h != 0 ==> h !in s.used && t.used == s.used[h := k] && Placed(s.lo, s.hi, Block(h, k)))
    ensures Alloc(s, k).1 == 0 <==> FirstFit(s.lists, k) == MAX_ORDER
  {
    var i := FirstFit(s.lists, k);
    if i < MAX_ORDER {
      var h := s.lists[i][0];
      assert IsFree(s, Block(h, i));
      LivePlaced(s, Block(h, i));
      TakeKeeps(s, i);
      CarveKeeps(Take(s, i), h, i, k);
      LivePlaced(Alloc(s, k).0, Block(h, k));
    }
  }

  /** Freeing keeps the invariant and removes exactly that allocation. */
  lemma {:induction false} FreeKeeps(s: State, b: Block)
    requires Inv(s) && IsUsed(s, b) && b.order < MAX_ORDER
    ensures Inv(Free(s, b)) && Free(s, b).lo == s.lo && Free(s, b).hi == s.hi
    ensures Free(s, b).used == s.used - {b.head}
    decreases MAX_ORDER - b.order
  {
    if b.order + 1 < MAX_ORDER && IsFree(s, b.Mate()) {
      AbsorbKeeps(s, b);
      FreeKeeps(Absorb(s, b), b.Parent());
    } else {
      ReleaseKeeps(s, b);
    }
  }

  // ---------------------------------------------------------------- what the pages see

  /** Managed pages are either free or used; so pages used plus pages free is constant. */
  lemma Conservation(s: State)
    requires Inv(s)
    ensures FreePages(s) !! UsedPages(s)
    ensures FreePages(s) + UsedPages(s) == Managed(s)
    ensures |FreePages(s)| + |UsedPages(s)| == if s.lo < s.hi then s.hi - s.lo else 0
  {
    forall x | x in Managed(s) ensures x in FreePages(s) <==> x !in UsedPages(s) {
      assert Covered(Live(s), x);
      var b :| b in Live(s) && b.Has(x);
      if x in FreePages(s) && x in UsedPages(s) {
        var f :| f in FreeBlocks(s) && f.Has(x);
        var u :| u in UsedBlocks(s) && u.Has(x);
        OneOwner(s, f, u, x);
        assert false;
      }
    }
    assert FreePages(s) + UsedPages(s) == Managed(s);
  }

  lemma WithinPages(b: Block, c: Block)
    requires b.Within(c)
    ensures b.Pages() <= c.Pages()
  {
  }

  lemma FreePageHasBlock(s: State, x: int) returns (b: Block)
    requires Inv(s) && x in FreePages(s)
    ensures IsFree(s, b) && Placed(s.lo, s.hi, b) && b.Has(x)
  {
    b :| b in FreeBlocks(s) && b.Has(x);
    LivePlaced(s, b);
  }

  lemma FreeBlockPages(s: State, b: Block)
    requires Inv(s) && IsFree(s, b)
    ensures Placed(s.lo, s.hi, b) && b.Pages() <= FreePages(s)
  {
    LivePlaced(s, b);
    forall x | b.Has(x) ensures x in FreePages(s) {
      assert b in FreeBlocks(s);
    }
  }

  lemma MatesNotBothFree(s: State, b: Block)
    requires Inv(s) && IsFree(s, b) && b.order + 1 < MAX_ORDER
    ensures !IsFree(s, b.Mate())
  {
  }

  /** Every aligned run of free pages lies within one free block. By induction on the order:
      if its two halves lay in different blocks, those would be free mates. */
  lemma {:induction false} RunInOneBlock(s: State, r: Block) returns (b: Block)
    requires Inv(s) && r.order < MAX_ORDER && Aligned(r.head, r.order)
    requires r.Pages() <= FreePages(s)
    ensures IsFree(s, b) && Placed(s.lo, s.hi, b) && r.order <= b.order && r.Within(b)
    decreases r.order
  {
    hide Inv, FreePages;
    if r.order == 0 {
      b := FreePageHasBlock(s, r.head);
      Pow2Monotone(0, b.order);
    } else {
      var k := r.order - 1;
      var lower := Block(r.head, k);
      AlignedDown(r.head, k, k + 1);
      Halves(lower);
      var upper := lower.Mate();
      WithinPages(lower, r);
      WithinPages(upper, r);
      b := RunInOneBlock(s, lower);
      var c := RunInOneBlock(s, upper);
      if b.order > k {
        Laminar(r, b, r.head);
      } else if c.order > k {
        Laminar(r, c, upper.head);
        b := c;
      } else {
        Laminar(lower, b, lower.head);
        Laminar(upper, c, upper.head);
        MatesNotBothFree(s, b);
        assert false;
      }
    }
  }

  /** The aligned runs of pages in f that no larger aligned run in f encloses. */
  ghost function MaximalRuns(f: set<int>): iset<Block> {
    iset b: Block |
      && b.order < MAX_ORDER && Aligned(b.head, b.order)
      && b.Pages() <= f
      && (b.order + 1 < MAX_ORDER ==> !(b.Parent().Pages() <= f))
  }

  lemma FreeBlockIsMaximal(s: State, b: Block)
    requires Inv(s) && IsFree(s, b)
    ensures b in MaximalRuns(FreePages(s))
  {
    hide Inv, FreePages;
    FreeBlockPages(s, b);
    if b.order + 1 < MAX_ORDER && b.Parent().Pages() <= FreePages(s) {
      Halves(b);
      var c := RunInOneBlock(s, b.Parent());
      OneOwner(s, b, c, b.head);
      assert false;
    }
  }

  lemma MaximalRunIsFree(s: State, b: Block)
    requires Inv(s) && b in MaximalRuns(FreePages(s))
    ensures IsFree(s, b)
  {
    hide Inv, FreePages;
    var c := RunInOneBlock(s, b);
    if c.order == b.order {
      Laminar(b, c, b.head);
    } else {
      Halves(b);
      var p := b.Parent();
      assert Aligned(p.head, p.order) && p.Has(b.head) && c.Has(b.head);
      Laminar(p, c, b.head);
      FreeBlockPages(s, c);
      WithinPages(p, c);
      assert false;
    }
  }

  /** The free blocks are a function of the free pages alone. */
  lemma CanonicalFreeBlocks(s: State)
    requires Inv(s)
    ensures FreeBlocks(s) == MaximalRuns(FreePages(s))
  {
    forall b ensures b in FreeBlocks(s) <==> b in MaximalRuns(FreePages(s)) {
      if IsFree(s, b) {
        FreeBlockIsMaximal(s, b);
      }
      if b in MaximalRuns(FreePages(s)) {
        MaximalRunIsFree(s, b);
      }
    }
  }

  lemma UsedGrowsAt(s: State, t: State, b: Block, x: int)
    requires s.lo == t.lo && s.hi == t.hi && Placed(s.lo, s.hi, b)
    requires b.head !in s.used && t.used == s.used[b.head := b.order]
    ensures x in UsedPages(t) <==> x in UsedPages(s) || b.Has(x)
  {
    assert forall c :: c in UsedBlocks(t) <==> c in UsedBlocks(s) || c == b;
    if b.Has(x) {
      assert b in UsedBlocks(t);
    }
    if x in UsedPages(s) {
      var c :| c in UsedBlocks(s) && c.Has(x);
      assert c in UsedBlocks(t);
    }
  }

  /** No page of a block that becomes live was in use. */
  lemma NotYetUsed(s: State, t: State, b: Block, x: int)
    requires Inv(t) && b.head !in s.used && t.used == s.used[b.head := b.order]
    ensures b.Has(x) ==> x !in UsedPages(s)
  {
    hide Inv;
    if b.Has(x) && x in UsedPages(s) {
      var c :| c in UsedBlocks(s) && c.Has(x);
      assert IsUsed(t, b) && IsUsed(t, c);
      OneOwner(t, c, b, x);
      assert false;
    }
  }

  /** A managed page is free exactly if it is not in use. */
  lemma FreeIffUnused(s: State, x: int)
    requires Inv(s) && x in Managed(s)
    ensures x in FreePages(s) <==> x !in UsedPages(s)
  {
    hide Inv, FreePages, UsedPages;
    Conservation(s);
  }

  lemma FreeShrinksAt(s: State, t: State, b: Block, x: int)
    requires Inv(s) && Inv(t) && s.lo == t.lo && s.hi == t.hi && Placed(s.lo, s.hi, b)
    requires b.head !in s.used && t.used == s.used[b.head := b.order]
    requires x in Managed(s)
    ensures x in FreePages(s) <==> x in FreePages(t) || b.Has(x)
    ensures !(x in FreePages(t) && b.Has(x))
  {
    hide Inv, FreePages, UsedPages;
    FreeIffUnused(s, x);
    FreeIffUnused(t, x);
    UsedGrowsAt(s, t, b, x);
    NotYetUsed(s, t, b, x);
  }

  lemma UsedGrows(s: State, t: State, b: Block)
    requires Inv(s) && Inv(t) && s.lo == t.lo && s.hi == t.hi
    requires b.head !in s.used && t.used == s.used[b.head := b.order]
    ensures b.Pages() <= FreePages(s) && FreePages(t) == FreePages(s) - b.Pages()
  {
    assert IsUsed(t, b);
    LivePlaced(t, b);
    forall x | x in Managed(s)
      ensures x in FreePages(s) <==> x in FreePages(t) || b.Has(x)
      ensures !(x in FreePages(t) && b.Has(x))
    {
      FreeShrinksAt(s, t, b, x);
    }
  }

  /** A granted allocation consists of free pages only, and takes nothing else. */
  lemma AllocTakesFreePages(s: State, k: nat)
    requires Inv(s) && Alloc(s, k).1 != 0
    ensures Block(Alloc(s, k).1, k).Pages() <= FreePages(s)
    ensures FreePages(Alloc(s, k).0) == FreePages(s) - Block(Alloc(s, k).1, k).Pages()
  {
    var (t, h) := Alloc(s, k);
    var b := Block(h, k);
    AllocKeeps(s, k);
    UsedGrows(s, t, b);
  }

  /** No false out-of-memory: an order below MAX_ORDER is refused exactly when no naturally
      aligned run of that order is entirely free. */
  lemma OutOfMemoryIffNoFreeRun(s: State, k: nat)
    requires Inv(s)
    ensures Alloc(s, k).1 == 0 <==>
      !exists r: Block :: r.order == k < MAX_ORDER && Aligned(r.head, k) && r.Pages() <= FreePages(s)
  {
    AllocKeeps(s, k);
    var (t, h) := Alloc(s, k);
    if h != 0 {
      var b := Block(h, k);
      AllocTakesFreePages(s, k);
    } else if r: Block :| r.order == k < MAX_ORDER && Aligned(r.head, k) && r.Pages() <= FreePages(s) {
      var c := RunInOneBlock(s, r);
      LivePlaced(s, c);
      assert false;
    }
  }

  /** Best fit: an allocation is the beginning of a maximal run of free pages, and no shorter
      one would do. */
  lemma BestFit(s: State, k: nat) returns (c: Block)
    requires Inv(s) && Alloc(s, k).1 != 0
    ensures c in MaximalRuns(FreePages(s)) && c.head == Alloc(s, k).1 && k <= c.order
    ensures forall b :: b in MaximalRuns(FreePages(s)) && k <= b.order ==> c.order <= b.order
  {
    hide MaximalRuns, FreePages;
    CanonicalFreeBlocks(s);
    var i := FirstFit(s.lists, k);
    c := Block(s.lists[i][0], i);
    assert c in FreeBlocks(s);
    forall b | b in MaximalRuns(FreePages(s)) && k <= b.order ensures i <= b.order {
      assert b in FreeBlocks(s);
    }
  }

  lemma WithinParent(s: State, b: Block)
    requires Inv(s) && IsUsed(s, b)
    ensures b.Within(b.Parent())
  {
    LivePlaced(s, b);
    Halves(b);
  }

  lemma WithinTwice(b: Block, p: Block, c: Block)
    requires b.Within(p) && p.Within(c)
    ensures b.Within(c)
  {
  }

  lemma ReleasedListed(s: State, b: Block)
    requires b.order < |s.lists|
    ensures IsFree(Release(s, b), b) && b.Within(b)
  {
  }

  lemma ReleasedFirst(s: State, b: Block)
    requires |s.lists| == MAX_ORDER && IsUsed(s, b) && b.order < MAX_ORDER
    ensures Alloc(Release(s, b), b.order) == (s, b.head)
  {
    var t := Release(s, b);
    assert t.lists[b.order][1..] == s.lists[b.order];
    assert FirstFit(t.lists, b.order) == b.order;
    assert Take(t, b.order).lists == s.lists && Take(t, b.order).used == s.used;
  }

  /** Last freed, first reused: of the maximal runs of its order, the one that a freed block
      becomes a part of is handed out next; if it is the block alone, that undoes the free. */
  lemma {:induction false} FreedFirst(s: State, b: Block) returns (c: Block)
    requires Inv(s) && IsUsed(s, b) && b.order < MAX_ORDER
    ensures c in MaximalRuns(FreePages(Free(s, b))) && b.order <= c.order && b.Within(c)
    ensures Alloc(Free(s, b), c.order).1 == c.head
    ensures c == b ==> Alloc(Free(s, b), b.order) == (s, b.head)
    ensures c != b ==> b.order < c.order
    decreases MAX_ORDER - b.order
  {
    hide MaximalRuns, FreePages, Alloc, Release, Absorb, Aligned, Pow2;
    if b.order + 1 < MAX_ORDER && IsFree(s, b.Mate()) {
      AbsorbKeeps(s, b);
      c := FreedFirst(Absorb(s, b), b.Parent());
      WithinParent(s, b);
      WithinTwice(b, b.Parent(), c);
    } else {
      c := b;
      ReleasedFirst(s, b);
      FreeKeeps(s, b);
      ReleasedListed(s, b);
      FreeBlockIsMaximal(Free(s, b), b);
    }
  }

  /** A freed allocation gives back its pages and nothing else. */
  lemma FreeReturnsPages(s: State, b: Block)
    requires Inv(s) && IsUsed(s, b) && b.order < MAX_ORDER
    ensures b.Pages() !! FreePages(s)
    ensures FreePages(Free(s, b)) == FreePages(s) + b.Pages()
  {
    FreeKeeps(s, b);
    assert Free(s, b).used[b.head := b.order] == s.used;
    UsedGrows(Free(s, b), s, b);
  }

  // ---------------------------------------------------------------- building the region

  /** The order the greedy loop reaches at page i, starting from order k. */
  function GreedyOrder(i: nat, end: nat, k: nat): (r: nat)
    requires k < MAX_ORDER
    ensures k <= r < MAX_ORDER
    decreases MAX_ORDER - k
  {
    if k + 1 < MAX_ORDER && i + Pow2(k + 1) <= end && Aligned(i, k + 1) then GreedyOrder(i, end, k + 1)
    else k
  }

  /** Put the free block b, which starts where the region ends, under management. */
  function Append(s: State, b: Block): State
    requires b.order < |s.lists|
  {
    s.(hi := b.head + Pow2(b.order), lists := s.lists[b.order := [b.head] + s.lists[b.order]])
  }

  /** Extend the region of s, which ends at i, up to end. */
  function AddRegion(s: State, i: nat, end: nat): State
    requires |s.lists| == MAX_ORDER
    decreases end - i
  {
    if i >= end then s
    else
      var k := GreedyOrder(i, end, 0);
      AddRegion(Append(s, Block(i, k)), i + Pow2(k), end)
  }

  lemma AddRegionUnfold(s: State, b: Block, end: nat)
    requires |s.lists| == MAX_ORDER && b.head < end && b.order == GreedyOrder(b.head, end, 0)
    ensures AddRegion(s, b.head, end) == AddRegion(Append(s, b), b.head + Pow2(b.order), end)
  {
  }

  lemma AddRegionDone(s: State, end: nat)
    requires |s.lists| == MAX_ORDER
    ensures AddRegion(s, end, end) == s
  {
  }

  function Empty(lo: nat): State {
    State(lo, lo, seq(MAX_ORDER, _ => []), map[])
  }

  /** What pmm_add_region builds on a fresh allocator. */
  function Region(lo: nat, end: nat): State {
    AddRegion(Empty(lo), lo, end)
  }

  lemma {:induction false} GreedyFits(i: nat, end: nat, k: nat)
    requires k < MAX_ORDER && Aligned(i, k) && i + Pow2(k) <= end
    ensures var r := GreedyOrder(i, end, k);
      && Aligned(i, r) && i + Pow2(r) <= end
      && (r + 1 < MAX_ORDER ==> !(Aligned(i, r + 1) && i + Pow2(r + 1) <= end))
    decreases MAX_ORDER - k
  {
    if k + 1 < MAX_ORDER && i + Pow2(k + 1) <= end && Aligned(i, k + 1) {
      GreedyFits(i, end, k + 1);
    }
  }

  /** No free block could be doubled in place without passing end. */
  ghost predicate Maximal(s: State, end: nat) {
    forall b :: IsFree(s, b) && b.order + 1 < MAX_ORDER ==>
      !(Aligned(b.head, b.order + 1) && b.head + Pow2(b.order + 1) <= end)
  }

  /** Of two mates, the lower one is aligned to the next order. */
  lemma AlignedMate(b: Block)
    requires Aligned(b.head, b.order)
    ensures b.head < b.Mate().head ==> Aligned(b.head, b.order + 1) && b.head + Pow2(b.order) == b.Mate().head
    ensures b.Mate().head < b.head ==>
      Aligned(b.Mate().head, b.order + 1) && b.Mate().head + Pow2(b.order) == b.head
  {
    Halves(b);
  }

  lemma MaximalIsCoalesced(s: State, end: nat)
    requires Maximal(s, end)
    requires forall b :: IsFree(s, b) ==> Placed(s.lo, end, b)
    ensures Coalesced(s)
  {
    forall b, c | IsFree(s, b) && IsFree(s, c) && b.order + 1 < MAX_ORDER ensures c != b.Mate() {
      if c == b.Mate() {
        Halves(b);
        AlignedMate(b);
        assert false;
      }
    }
  }

  lemma AppendPartition(lo: nat, hi: nat, blocks: iset<Block>, after: iset<Block>, b: Block)
    requires Partition(lo, hi, blocks) && lo <= hi == b.head
    requires b.order < MAX_ORDER && Aligned(b.head, b.order)
    requires forall c :: c in after <==> c == b || c in blocks
    ensures Partition(lo, hi + Pow2(b.order), after)
  {
    forall x | lo <= x < hi + Pow2(b.order) ensures Covered(after, x) {
      if x < hi {
        assert Covered(blocks, x);
        var c :| c in blocks && c.Has(x);
        assert c in after;
      } else {
        assert b in after && b.Has(x);
      }
    }
  }

  lemma AppendKeeps(s: State, b: Block, end: nat)
    requires Inv(s) && s.used == map[] && s.lo <= s.hi == b.head && Maximal(s, end)
    requires b.order < MAX_ORDER && Aligned(b.head, b.order) && b.head + Pow2(b.order) <= end
    requires b.order + 1 < MAX_ORDER ==> !(Aligned(b.head, b.order + 1) && b.head + Pow2(b.order + 1) <= end)
    ensures Inv(Append(s, b)) && Maximal(Append(s, b), end)
  {
    hide Block.Mate, Block.Parent;
    var t := Append(s, b);
    if b.head in s.lists[b.order] {
      LivePlaced(s, b);
      assert false;
    }
    assert forall c :: IsFree(t, c) <==> IsFree(s, c) || c == b;
    AppendPartition(s.lo, s.hi, Live(s), Live(t), b);
    forall c | IsFree(t, c) ensures Placed(t.lo, end, c) {
      if c != b { LivePlaced(s, c); }
    }
    MaximalIsCoalesced(t, end);
  }

  /** One round of the greedy loop. */
  lemma AppendGreedy(s: State, b: Block, end: nat)
    requires Inv(s) && s.used == map[] && s.lo <= s.hi == b.head < end && Maximal(s, end)
    requires b.order == GreedyOrder(b.head, end, 0)
    ensures b.order < MAX_ORDER == |s.lists| && b.head < b.head + Pow2(b.order) <= end
    ensures var t := Append(s, b);
      && Inv(t) && Maximal(t, end) && |t.lists| == MAX_ORDER
      && t.used == map[] && t.lo == s.lo <= t.hi == b.head + Pow2(b.order)
  {
    hide Maximal, GreedyOrder, Partition, Coalesced, Distinct, Live, IsFree, IsUsed;
    GreedyFits(b.head, end, 0);
    AppendKeeps(s, b, end);
  }

  /** The greedy loop tiles exactly the pages up to end with maximal free blocks. */
  lemma {:induction false} AddRegionKeeps(s: State, i: nat, end: nat)
    requires Inv(s) && s.used == map[] && s.lo <= s.hi == i <= end && Maximal(s, end)
    ensures Inv(AddRegion(s, i, end)) && AddRegion(s, i, end).used == map[]
    ensures AddRegion(s, i, end).lo == s.lo && AddRegion(s, i, end).hi == end
    decreases end - i
  {
    hide Inv, Maximal, Pow2, GreedyOrder, Append;
    if i < end {
      var b := Block(i, GreedyOrder(i, end, 0));
      AppendGreedy(s, b, end);
      AddRegionKeeps(Append(s, b), i + Pow2(b.order), end);
    }
  }

  lemma EmptyInv(lo: nat)
    requires lo > 0
    ensures Inv(Empty(lo)) && FreeBlocks(Empty(lo)) == iset{}
  {
    assert forall b :: !IsFree(Empty(lo), b);
  }

  lemma NothingUsed(s: State)
    requires Inv(s) && s.used == map[]
    ensures FreePages(s) == Managed(s)
  {
    Conservation(s);
    assert UsedPages(s) == {} by {
      assert forall b :: b !in UsedBlocks(s);
    }
  }

  /** A fresh region is managed exactly, entirely free, and satisfies the invariant. */
  lemma RegionInv(lo: nat, end: nat)
    requires 0 < lo <= end
    ensures Inv(Region(lo, end)) && Region(lo, end).used == map[]
    ensures Region(lo, end).lo == lo && Region(lo, end).hi == end
    ensures FreePages(Region(lo, end)) == Range(lo, end)
  {
    EmptyInv(lo);
    assert forall b :: !IsFree(Empty(lo), b);
    AddRegionKeeps(Empty(lo), lo, end);
    NothingUsed(Region(lo, end));
  }

  // ---------------------------------------------------------------- whole runs

  datatype Op = AllocOp(order: nat) | FreeOp(block: Block)

  /** A free must name a live allocation with its own order. */
  predicate Legal(s: State, op: Op) {
    op.FreeOp? ==> IsUsed(s, op.block) && op.block.order < MAX_ORDER == |s.lists|
  }

  function Step(s: State, op: Op): State
    requires Legal(s, op)
  {
    match op
    case AllocOp(k) => Alloc(s, k).0
    case FreeOp(b) => Free(s, b)
  }

  predicate LegalRun(s: State, ops: seq<Op>)
    decreases |ops|
  {
    ops == [] || (Legal(s, ops[0]) && LegalRun(Step(s, ops[0]), ops[1..]))
  }

  function Run(s: State, ops: seq<Op>): State
    requires LegalRun(s, ops)
    decreases |ops|
  {
    if ops == [] then s else Run(Step(s, ops[0]), ops[1..])
  }

  /** Every reachable state satisfies the invariant. */
  lemma {:induction false} RunKeeps(s: State, ops: seq<Op>)
    requires Inv(s) && LegalRun(s, ops)
    ensures Inv(Run(s, ops)) && Run(s, ops).lo == s.lo && Run(s, ops).hi == s.hi
    decreases |ops|
  {
    if ops != [] {
      match ops[0] {
        case AllocOp(k) => AllocKeeps(s, k);
        case FreeOp(b) => FreeKeeps(s, b);
      }
      RunKeeps(Step(s, ops[0]), ops[1..]);
    }
  }

  /** After any legal run over one region, in any order, the free blocks depend only on the
      free pages: two runs that leave the same pages free leave the same free blocks. */
  lemma RunsAgree(lo: nat, end: nat, ops: seq<Op>, ops': seq<Op>)
    requires 0 < lo <= end
    requires LegalRun(Region(lo, end), ops) && LegalRun(Region(lo, end), ops')
    requires FreePages(Run(Region(lo, end), ops)) == FreePages(Run(Region(lo, end), ops'))
    ensures FreeBlocks(Run(Region(lo, end), ops)) == FreeBlocks(Run(Region(lo, end), ops'))
  {
    RegionInv(lo, end);
    RunKeeps(Region(lo, end), ops);
    RunKeeps(Region(lo, end), ops');
    CanonicalFreeBlocks(Run(Region(lo, end), ops));
    CanonicalFreeBlocks(Run(Region(lo, end), ops'));
  }

  /** Once everything allocated has been freed, the free blocks are those the region was
      built with. */
  lemma AllFreedRestores(lo: nat, end: nat, ops: seq<Op>)
    requires 0 < lo <= end
    requires LegalRun(Region(lo, end), ops) && Run(Region(lo, end), ops).used == map[]
    ensures FreeBlocks(Run(Region(lo, end), ops)) == FreeBlocks(Region(lo, end))
  {
    RegionInv(lo, end);
    RunKeeps(Region(lo, end), ops);
    NothingUsed(Run(Region(lo, end), ops));
    RunsAgree(lo, end, ops, []);
  }
}
