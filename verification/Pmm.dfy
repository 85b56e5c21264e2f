/** src/kernel/mm/pmm.c: the page array, the twelve doubly linked free lists threaded
    through it, and the allocator's operations, which update both in place. */
module Pmm {
  import opened Bits
  import opened Buddy
  import opened Options
  import opened Words

  /** Links are page indices, NIL when there is none. flags is 0 for free, 1 for used. */
  datatype Page = Page(order: nat, flags: nat, next: int, prev: int)

  // ---------------------------------------------------------------- linked lists

  /** Entry j of a list, NIL beyond either end. */
  function At(ls: seq<nat>, j: int): int {
    if 0 <= j < |ls| then ls[j] else NIL
  }

  /** head leads through next to the entries of ls, in order, and prev leads back. */
  ghost predicate Linked(ps: seq<Page>, head: int, ls: seq<nat>) {
    && head == At(ls, 0)
    && (forall j :: 0 <= j < |ls| ==> ls[j] < |ps|)
    && (forall j {:trigger ps[ls[j]]} :: 0 <= j < |ls| ==>
         ps[ls[j]].next == At(ls, j + 1) && ps[ls[j]].prev == At(ls, j - 1))
  }

  /** No page is on a list twice, nor on two lists. */
  ghost predicate Separate(lists: seq<seq<nat>>) {
    && (forall k :: 0 <= k < |lists| ==> Distinct(lists[k]))
    && (forall j, k, x :: 0 <= j < |lists| && 0 <= k < |lists| && x in lists[j] && x in lists[k] ==> j == k)
  }

  ghost predicate AllLinked(ps: seq<Page>, heads: seq<int>, lists: seq<seq<nat>>) {
    && |heads| == |lists|
    && Separate(lists)
    && (forall k :: 0 <= k < |lists| ==> Linked(ps, heads[k], lists[k]))
  }

  /** Only links differ. */
  ghost predicate SameBlocks(ps: seq<Page>, qs: seq<Page>) {
    |ps| == |qs| && forall x :: 0 <= x < |ps| ==> ps[x].order == qs[x].order && ps[x].flags == qs[x].flags
  }

  /** node went in front of head; all else is as it was. */
  ghost predicate PutFirst(ps: seq<Page>, qs: seq<Page>, head: int, node: nat) {
    && |ps| == |qs|
    && forall x :: 0 <= x < |ps| ==>
        qs[x] == if x == node then ps[x].(next := head, prev := NIL)
                 else if x == head then ps[x].(prev := node)
                 else ps[x]
  }

  /** node's neighbours are linked to each other; all else is as it was, node included. */
  ghost predicate Bypassed(ps: seq<Page>, qs: seq<Page>, node: nat) {
    && |ps| == |qs| && node < |ps|
    && forall x :: 0 <= x < |ps| ==>
        qs[x] == if x == ps[node].prev then ps[x].(next := ps[node].next)
                 else if x == ps[node].next then ps[x].(prev := ps[node].prev)
                 else ps[x]
  }

  /** Page x got this order and these flags; no other page's order or flags changed. */
  ghost predicate Relabelled(ps: seq<Page>, qs: seq<Page>, x: nat, order: nat, flags: nat) {
    && |ps| == |qs| && x < |qs| && qs[x].order == order && qs[x].flags == flags
    && forall y :: 0 <= y < |ps| && y != x ==> ps[y].order == qs[y].order && ps[y].flags == qs[y].flags
  }

  lemma LinkedFrame(ps: seq<Page>, qs: seq<Page>, head: int, ls: seq<nat>)
    requires Linked(ps, head, ls) && |ps| == |qs|
    requires forall x :: x in ls && x < |ps| ==> qs[x].next == ps[x].next && qs[x].prev == ps[x].prev
    ensures Linked(qs, head, ls)
  {
    forall j | 0 <= j < |ls|
      ensures qs[ls[j]].next == At(ls, j + 1) && qs[ls[j]].prev == At(ls, j - 1)
    {
      assert ls[j] in ls && ps[ls[j]] == ps[ls[j]];
    }
  }

  lemma PushFront(ps: seq<Page>, qs: seq<Page>, head: int, ls: seq<nat>, node: nat)
    requires Linked(ps, head, ls) && Distinct(ls) && |ps| == |qs| && node < |ps| && node !in ls
    requires qs[node].next == head && qs[node].prev == NIL
    requires head != NIL ==> qs[head].prev == node && qs[head].next == ps[head].next
    requires forall x :: x in ls && x < |ps| && x != head ==> qs[x].next == ps[x].next && qs[x].prev == ps[x].prev
    ensures Linked(qs, node, [node] + ls) && Distinct([node] + ls)
  {
    var ms := [node] + ls;
    forall j | 0 <= j < |ms|
      ensures qs[ms[j]].next == At(ms, j + 1) && qs[ms[j]].prev == At(ms, j - 1)
    {
      if j > 0 {
        var x := ls[j - 1];
        assert ms[j] == x && x in ls && ps[x].next == At(ls, j);
        assert j > 1 ==> x != ls[0];
      }
    }
  }

  lemma AtCut(ls: seq<nat>, i: nat, j: int)
    requires i < |ls|
    ensures At(ls[..i] + ls[i + 1..], j) == At(ls, if j < i then j else j + 1)
  {
  }

  lemma UnlinkShape(ls: seq<nat>, i: nat, j: nat)
    requires i < |ls| && j < |ls| - 1
    ensures var ms, k := ls[..i] + ls[i + 1..], if j < i then j else j + 1;
      && ms[j] == ls[k]
      && At(ms, j + 1) == At(ls, if k + 1 == i then i + 1 else k + 1)
      && At(ms, j - 1) == At(ls, if k == i + 1 then i - 1 else k - 1)
  {
    AtCut(ls, i, j - 1);
    AtCut(ls, i, j + 1);
  }

  /** What Unlink's assumption says of entry k of the list. */
  lemma UnlinkAt(ps: seq<Page>, qs: seq<Page>, head: int, ls: seq<nat>, i: nat, k: nat)
    requires Linked(ps, head, ls) && Distinct(ls) && |ps| == |qs| && i < |ls| && k < |ls| && k != i
    requires var before, after := At(ls, i - 1), At(ls, i + 1);
      forall x :: x in ls && x < |ps| && x != ls[i] ==>
        && qs[x].next == (if x == before then after else ps[x].next)
        && qs[x].prev == (if x == after then before else ps[x].prev)
    ensures ls[k] < |qs|
    ensures qs[ls[k]].next == At(ls, if k + 1 == i then i + 1 else k + 1)
    ensures qs[ls[k]].prev == At(ls, if k == i + 1 then i - 1 else k - 1)
  {
    assert ls[k] in ls && ls[k] != ls[i];
  }

  lemma Unlink(ps: seq<Page>, qs: seq<Page>, head: int, ls: seq<nat>, i: nat)
    requires Linked(ps, head, ls) && Distinct(ls) && |ps| == |qs| && i < |ls|
    requires var before, after := At(ls, i - 1), At(ls, i + 1);
      forall x :: x in ls && x < |ps| && x != ls[i] ==>
        && qs[x].next == (if x == before then after else ps[x].next)
        && qs[x].prev == (if x == after then before else ps[x].prev)
    ensures Linked(qs, if i == 0 then At(ls, 1) else head, ls[..i] + ls[i + 1..])
  {
    hide At;
    var ms := ls[..i] + ls[i + 1..];
    AtCut(ls, i, 0);
    forall j | 0 <= j < |ms|
      ensures ms[j] < |qs| && qs[ms[j]].next == At(ms, j + 1) && qs[ms[j]].prev == At(ms, j - 1)
    {
      UnlinkAt(ps, qs, head, ls, i, if j < i then j else j + 1);
      UnlinkShape(ls, i, j);
    }
  }

  lemma WithoutAt(ls: seq<nat>, i: nat)
    requires i < |ls| && i == IndexOf(ls, ls[i])
    ensures Without(ls, ls[i]) == ls[..i] + ls[i + 1..]
  {
  }

  /** The neighbours in one list are in no other. */
  lemma OtherList(ps: seq<Page>, heads: seq<int>, lists: seq<seq<nat>>, order: nat, i: nat, k: nat)
    requires AllLinked(ps, heads, lists) && order < |lists| && i < |lists[order]| && k < |lists| && k != order
    ensures forall x :: x in lists[k] ==> x != At(lists[order], i - 1) && x != At(lists[order], i + 1)
  {
  }

  /** Unlinking entry i of one list leaves all the lists linked. */
  lemma RelinkedAll(ps: seq<Page>, qs: seq<Page>, heads: seq<int>, heads': seq<int>,
                    lists: seq<seq<nat>>, order: nat, i: nat)
    requires AllLinked(ps, heads, lists) && |ps| == |qs| && order < |lists| && i < |lists[order]|
    requires i == IndexOf(lists[order], lists[order][i])
    requires var before, after := At(lists[order], i - 1), At(lists[order], i + 1);
      && (forall x :: 0 <= x < |ps| ==>
           && qs[x].next == (if x == before then after else ps[x].next)
           && qs[x].prev == (if x == after then before else ps[x].prev))
      && heads' == heads[order := if i == 0 then after else heads[order]]
    ensures AllLinked(qs, heads', lists[order := Without(lists[order], lists[order][i])])
  {
    hide Without, IndexOf, Linked;
    var ls := lists[order];
    var after := lists[order := Without(ls, ls[i])];
    WithoutElements(ls, ls[i]);
    WithoutAt(ls, i);
    Unlink(ps, qs, heads[order], ls, i);
    forall k | 0 <= k < |lists| ensures Linked(qs, heads'[k], after[k]) {
      if k != order {
        OtherList(ps, heads, lists, order, i, k);
        LinkedFrame(ps, qs, heads[k], lists[k]);
      }
    }
  }

  /** Changing order and flags does not touch the links. */
  lemma RelabelLinked(ps: seq<Page>, qs: seq<Page>, heads: seq<int>, lists: seq<seq<nat>>)
    requires AllLinked(ps, heads, lists) && |ps| == |qs|
    requires forall x :: 0 <= x < |ps| ==> qs[x].next == ps[x].next && qs[x].prev == ps[x].prev
    ensures AllLinked(qs, heads, lists)
  {
    forall k | 0 <= k < |lists| ensures Linked(qs, heads[k], lists[k]) {
      LinkedFrame(ps, qs, heads[k], lists[k]);
    }
  }

  lemma ListHead(ps: seq<Page>, heads: seq<int>, lists: seq<seq<nat>>, k: nat)
    requires AllLinked(ps, heads, lists) && k < |lists|
    ensures if lists[k] == [] then heads[k] == NIL
            else heads[k] == lists[k][0] && Without(lists[k], lists[k][0]) == lists[k][1..]
  {
    assert Linked(ps, heads[k], lists[k]);
  }

  // ---------------------------------------------------------------- block metadata

  /** flags and order are right at the head of every live block except hand, and every page
      outside the region says used. Nothing is known of interior pages: they keep whatever
      they held when they last were heads. */
  ghost predicate Meta(ps: seq<Page>, s: State, hand: int) {
    && (s.lo < s.hi ==> s.hi <= |ps|)
    && (forall b :: IsFree(s, b) && b.head != hand ==>
         b.head < |ps| && ps[b.head].flags == 0 && ps[b.head].order == b.order)
    && (forall b :: IsUsed(s, b) && b.head != hand ==>
         b.head < |ps| && ps[b.head].flags == 1 && ps[b.head].order == b.order)
    && (forall x :: 0 <= x < |ps| && !(s.lo <= x < s.hi) ==> ps[x].flags == 1)
  }

  /** Stale metadata never misleads the merge loop: its test on the mate's page succeeds
      exactly when the mate is a free block of this order. */
  lemma MergeTestExact(ps: seq<Page>, s: State, b: Block)
    requires Inv(s) && IsUsed(s, b) && Meta(ps, s, b.head)
    ensures var m := b.Mate().head;
      m < |ps| && ps[m].flags != 1 && ps[m].order == b.order <==> IsFree(s, b.Mate())
  {
    var m := b.Mate();
    LivePlaced(s, b);
    Halves(b);
    if IsFree(s, m) {
      LivePlaced(s, m);
    } else if s.lo <= m.head < s.hi {
      MateIsHead(s.lo, s.hi, Live(s), b);
      var c :| c in Live(s) && c.head == m.head && c.order <= b.order;
    }
  }

  lemma NotOnAnyList(s: State, b: Block)
    requires Inv(s) && IsUsed(s, b)
    ensures forall k :: 0 <= k < |s.lists| ==> b.head !in s.lists[k]
  {
    forall k: nat | k < |s.lists| ensures b.head !in s.lists[k] {
      if b.head in s.lists[k] {
        HeadsDiffer(s, b, Block(b.head, k));
        assert false;
      }
    }
  }

  lemma BlockFits(ps: seq<Page>, s: State, hand: int, b: Block)
    requires Inv(s) && IsUsed(s, b) && Meta(ps, s, hand)
    ensures Placed(s.lo, s.hi, b) && b.head + Pow2(b.order) <= |ps|
  {
    LivePlaced(s, b);
  }

  /** A fresh allocator can start its region at any page. */
  lemma EmptyStart(ps: seq<Page>, heads: seq<int>, lo: nat, end: nat)
    requires lo > 0 && AllLinked(ps, heads, Empty(1).lists) && Meta(ps, Empty(1), NIL)
    ensures AllLinked(ps, heads, Empty(lo).lists) && Meta(ps, Empty(lo), NIL)
    ensures Inv(Empty(lo)) && Empty(lo).lo == Empty(lo).hi == lo && Empty(lo).used == map[]
    ensures |Empty(lo).lists| == MAX_ORDER && Maximal(Empty(lo), end)
  {
    EmptyInv(lo);
    assert forall b :: !IsFree(Empty(lo), b);
  }

  lemma FullyListed(s: State)
    requires Inv(s)
    ensures |s.lists| == MAX_ORDER
  {
  }

  lemma GreedyStep(s: State, b: Block, end: nat)
    requires Inv(s) && s.used == map[] && s.lo <= s.hi == b.head < end && Maximal(s, end)
    requires b.order == GreedyOrder(b.head, end, 0) && Aligned(b.head, b.order) && b.head + Pow2(b.order) <= end
    requires b.order + 1 < MAX_ORDER ==> !(Aligned(b.head, b.order + 1) && b.head + Pow2(b.order + 1) <= end)
    ensures b.order < MAX_ORDER == |s.lists|
    ensures var t := Append(s, b);
      && Inv(t) && Maximal(t, end)
      && |t.lists| == MAX_ORDER && t.lo == s.lo && t.hi == b.head + Pow2(b.order) && t.used == map[]
      && t.lists == s.lists[b.order := [b.head] + s.lists[b.order]]
      && Buddy.AddRegion(t, t.hi, end) == Buddy.AddRegion(s, b.head, end)
  {
    hide Inv, Maximal, Aligned, Pow2, GreedyOrder, Buddy.AddRegion;
    FullyListed(s);
    AppendKeeps(s, b, end);
    AddRegionUnfold(s, b, end);
  }

  lemma BeyondRegionUnlisted(s: State)
    requires Inv(s)
    ensures forall k :: 0 <= k < |s.lists| ==> s.hi !in s.lists[k]
  {
    forall k: nat | k < |s.lists| ensures s.hi !in s.lists[k] {
      if s.hi in s.lists[k] {
        LivePlaced(s, Block(s.hi, k));
        assert false;
      }
    }
  }

  lemma TakeMeta(ps: seq<Page>, qs: seq<Page>, s: State, k: nat)
    requires Inv(s) && k < MAX_ORDER && s.lists[k] != [] && Meta(ps, s, NIL) && SameBlocks(ps, qs)
    ensures Meta(qs, Take(s, k), s.lists[k][0])
  {
    assert s.lists[k] == [s.lists[k][0]] + s.lists[k][1..];
  }

  lemma HalveMeta(ps: seq<Page>, qs: seq<Page>, s: State, h: nat, k: nat)
    requires Inv(s) && k + 1 < MAX_ORDER && IsUsed(s, Block(h, k + 1)) && Meta(ps, s, h)
    requires Relabelled(ps, qs, h + Pow2(k), k, 0)
    ensures Meta(qs, Halve(s, h, k), h)
  {
    var p, m := Block(h, k + 1), h + Pow2(k);
    LivePlaced(s, p);
    forall c | (IsFree(s, c) || IsUsed(s, c)) && c.head == m ensures false {
      OneOwner(s, c, p, m);
    }
    assert forall c :: IsFree(Halve(s, h, k), c) <==> IsFree(s, c) || c == Block(m, k);
  }

  /** The page just above the lower half of an allocation heads no live block. */
  lemma UpperHalfUnused(s: State, h: nat, k: nat)
    requires Inv(s) && IsUsed(s, Block(h, k + 1))
    ensures forall j :: 0 <= j < |s.lists| ==> h + Pow2(k) !in s.lists[j]
    ensures h + Pow2(k) < s.hi
  {
    var p, m := Block(h, k + 1), h + Pow2(k);
    LivePlaced(s, p);
    forall j: nat | j < |s.lists| ensures m !in s.lists[j] {
      if m in s.lists[j] {
        OneOwner(s, Block(m, j), p, m);
        assert false;
      }
    }
  }

  lemma AbsorbMeta(ps: seq<Page>, qs: seq<Page>, s: State, b: Block)
    requires Inv(s) && IsUsed(s, b) && b.order + 1 < MAX_ORDER && IsFree(s, b.Mate())
    requires Meta(ps, s, b.head) && SameBlocks(ps, qs)
    ensures Meta(qs, Absorb(s, b), b.Parent().head)
  {
    var t := Absorb(s, b);
    LivePlaced(s, b);
    WithoutElements(s.lists[b.order], b.Mate().head);
    forall c | IsFree(t, c) ensures IsFree(s, c) && c.head != b.head {
      if c.head == b.head {
        HeadsDiffer(s, b, c);
        assert false;
      }
    }
  }

  lemma ReleaseMeta(ps: seq<Page>, qs: seq<Page>, s: State, b: Block)
    requires Inv(s) && IsUsed(s, b) && b.order < MAX_ORDER && Meta(ps, s, b.head)
    requires Relabelled(ps, qs, b.head, b.order, 0)
    ensures Meta(qs, Release(s, b), NIL)
  {
    LivePlaced(s, b);
    NotOnAnyList(s, b);
    assert forall c :: IsFree(Release(s, b), c) <==> IsFree(s, c) || c == b;
  }

  lemma GrantMeta(ps: seq<Page>, qs: seq<Page>, s: State, b: Block)
    requires Inv(s) && IsUsed(s, b) && Meta(ps, s, b.head)
    requires Relabelled(ps, qs, b.head, b.order, 1)
    ensures Meta(qs, s, NIL)
  {
    LivePlaced(s, b);
    NotOnAnyList(s, b);
  }

  lemma AppendMeta(ps: seq<Page>, qs: seq<Page>, s: State, b: Block)
    requires Inv(s) && s.used == map[] && s.lo <= s.hi == b.head && b.order < MAX_ORDER && Meta(ps, s, NIL)
    requires b.head + Pow2(b.order) <= |qs| && Relabelled(ps, qs, b.head, b.order, 0)
    ensures Meta(qs, Append(s, b), NIL)
  {
    forall c | IsFree(s, c) ensures c.head < b.head {
      LivePlaced(s, c);
    }
    assert forall c :: IsFree(Append(s, b), c) <==> IsFree(s, c) || c == b;
  }

  // ---------------------------------------------------------------- the allocator

  lemma SinglePageFits(i: nat, endPage: nat)
    ensures Aligned(i, 0) && (i < endPage ==> i + Pow2(0) <= endPage)
  {
  }

  /** The test of the inner loop of pmm_add_region, against the order it looks for. */
  lemma GreedyStepTest(i: nat, endPage: nat, order: nat)
    requires order + 1 < MAX_ORDER
    ensures Pow2(order + 1) > 0 && (i % Pow2(order + 1) == 0 <==> Aligned(i, order + 1))
    ensures GreedyOrder(i, endPage, order) ==
      if Aligned(i, order + 1) && i + Pow2(order + 1) <= endPage then GreedyOrder(i, endPage, order + 1) else order
  {
    BaseIsFloor(i, order + 1);
  }

  class Allocator {
    const pages: array<Page>
    const totalPages: nat
    const freeLists: array<int>
    ghost var state: State

    ghost predicate Linkage()
      reads this, pages, freeLists
    {
      && pages.Length == totalPages && freeLists.Length == MAX_ORDER
      && AllLinked(pages[..], freeLists[..], state.lists)
    }

    ghost predicate Valid()
      reads this, pages, freeLists
    {
      Linkage() && Inv(state) && Meta(pages[..], state, NIL)
    }

    method ListAdd(order: nat, node: nat, ghost lists: seq<seq<nat>>)
      requires order < freeLists.Length && node < pages.Length
      requires AllLinked(pages[..], freeLists[..], lists)
      requires forall k :: 0 <= k < |lists| ==> node !in lists[k]
      modifies pages, freeLists
      ensures AllLinked(pages[..], freeLists[..], lists[order := [node] + lists[order]])
      ensures freeLists[..] == old(freeLists[..])[order := node]
      ensures PutFirst(old(pages[..]), pages[..], old(freeLists[order]), node)
      ensures SameBlocks(old(pages[..]), pages[..])
    {
      ghost var ps, heads := pages[..], freeLists[..];
      ghost var ls := lists[order];
      pages[node] := pages[node].(next := freeLists[order]);
      pages[node] := pages[node].(prev := NIL);
      if freeLists[order] != NIL {
        assert freeLists[order] == ls[0];
        pages[freeLists[order]] := pages[freeLists[order]].(prev := node);
      }
      freeLists[order] := node;
      PushFront(ps, pages[..], heads[order], ls, node);
      ghost var after := lists[order := [node] + ls];
      forall k | 0 <= k < |lists| ensures Linked(pages[..], freeLists[k], after[k]) {
        if k != order {
          LinkedFrame(ps, pages[..], heads[k], lists[k]);
        }
      }
    }

    method ListRemove(order: nat, node: nat, ghost lists: seq<seq<nat>>)
      requires order < freeLists.Length && order < |lists| && node in lists[order]
      requires AllLinked(pages[..], freeLists[..], lists)
      modifies pages, freeLists
      ensures AllLinked(pages[..], freeLists[..], lists[order := Without(lists[order], node)])
      ensures freeLists[..] ==
        if old(pages[node].prev) == NIL then old(freeLists[..])[order := old(pages[node].next)] else old(freeLists[..])
      ensures Bypassed(old(pages[..]), pages[..], node)
      ensures SameBlocks(old(pages[..]), pages[..])
    {
      ghost var ps, heads := pages[..], freeLists[..];
      ghost var ls := lists[order];
      ghost var i := IndexOf(ls, node);
      assert ps[ls[i]] == pages[node];
      if pages[node].prev != NIL {
        pages[pages[node].prev] := pages[pages[node].prev].(next := pages[node].next);
      } else {
        freeLists[order] := pages[node].next;
      }
      if pages[node].next != NIL {
        pages[pages[node].next] := pages[pages[node].next].(prev := pages[node].prev);
      }
      RelinkedAll(ps, pages[..], heads, freeLists[..], lists, order, i);
    }

    /** Mark page x as the head of a free block of this order and put it on its list. */
    method ListFreeBlock(x: nat, order: nat, ghost lists: seq<seq<nat>>)
      requires order < freeLists.Length && x < pages.Length
      requires AllLinked(pages[..], freeLists[..], lists)
      requires forall k :: 0 <= k < |lists| ==> x !in lists[k]
      modifies pages, freeLists
      ensures AllLinked(pages[..], freeLists[..], lists[order := [x] + lists[order]])
      ensures Relabelled(old(pages[..]), pages[..], x, order, 0)
    {
      hide AllLinked;
      pages[x] := pages[x].(order := order);
      pages[x] := pages[x].(flags := 0);
      RelabelLinked(old(pages[..]), pages[..], freeLists[..], lists);
      ListAdd(order, x, lists);
    }

    /** pmm_init: every page used, every list empty. */
    constructor (memSize: nat)
      ensures Valid() && fresh(pages) && fresh(freeLists)
      ensures totalPages == memSize / PAGE_SIZE && state == Empty(1)
    {
      var n := memSize / PAGE_SIZE;
      totalPages := n;
      pages := new Page[n](_ => Page(0, 0, 0, 0));
      freeLists := new int[MAX_ORDER](_ => 0);
      state := Empty(1);
      new;
      var i := 0;
      while i < totalPages
        invariant 0 <= i <= totalPages && state == Empty(1) && fresh(pages) && fresh(freeLists)
        invariant forall x :: 0 <= x < i ==> pages[x] == Page(0, 1, NIL, NIL)
      {
        pages[i] := Page(0, 1, NIL, NIL);
        i := i + 1;
      }
      i := 0;
      while i < MAX_ORDER
        invariant 0 <= i <= MAX_ORDER && state == Empty(1) && fresh(pages) && fresh(freeLists)
        invariant forall k :: 0 <= k < i ==> freeLists[k] == NIL
        invariant forall x :: 0 <= x < totalPages ==> pages[x] == Page(0, 1, NIL, NIL)
      {
        freeLists[i] := NIL;
        i := i + 1;
      }
      EmptyInv(1);
      assert forall b :: !IsFree(state, b);
    }

    /** The inner loop of pmm_add_region. */
    static method LargestOrder(i: nat, endPage: nat) returns (order: nat)
      requires i < endPage
      ensures order == GreedyOrder(i, endPage, 0)
      ensures order < MAX_ORDER && Aligned(i, order) && i + Pow2(order) <= endPage
      ensures order + 1 < MAX_ORDER ==> !(Aligned(i, order + 1) && i + Pow2(order + 1) <= endPage)
    {
      hide Pow2, Aligned, GreedyOrder;
      SinglePageFits(i, endPage);
      order := 0;
      while order < MAX_ORDER - 1
        invariant order < MAX_ORDER
        invariant Aligned(i, order) && i + Pow2(order) <= endPage
        invariant GreedyOrder(i, endPage, order) == GreedyOrder(i, endPage, 0)
      {
        var blockSize := Pow2(order + 1);
        GreedyStepTest(i, endPage, order);
        if i + blockSize > endPage || i % blockSize != 0 {
          break;
        }
        order := order + 1;
      }
      GreedyFits(i, endPage, order);
    }

    /** The body of pmm_add_region's outer loop: one maximal block at page i. */
    method AddBlock(i: nat, endPage: nat) returns (next: nat)
      requires Valid() && state.used == map[] && Maximal(state, endPage)
      requires state.lo <= state.hi == i < endPage <= totalPages
      modifies this`state, pages, freeLists
      ensures |old(state).lists| == |state.lists| == MAX_ORDER
      ensures i < next <= endPage && next == state.hi && state.lo == old(state.lo) && state.used == map[]
      ensures Buddy.AddRegion(state, next, endPage) == Buddy.AddRegion(old(state), i, endPage)
      ensures Valid() && Maximal(state, endPage)
    {
      hide Inv, Meta, AllLinked, Relabelled, Maximal, Buddy.AddRegion, Append, GreedyOrder, Pow2;
      var order := LargestOrder(i, endPage);
      ghost var b := Block(i, order);
      GreedyStep(state, b, endPage);
      BeyondRegionUnlisted(state);
      ListFreeBlock(i, order, state.lists);
      AppendMeta(old(pages[..]), pages[..], state, b);
      state := Append(state, b);
      next := i + Pow2(order);
    }

    /** pmm_add_region, on a fresh allocator. */
    method AddRegion(start: nat, length: nat)
      requires Valid() && state == Empty(1)
      requires PAGE_SIZE <= start && (start + length) / PAGE_SIZE <= totalPages
      modifies this`state, pages, freeLists
      ensures Valid() && state == Region(start / PAGE_SIZE, (start + length) / PAGE_SIZE)
      ensures Buddy.FreePages(state) == Range(start / PAGE_SIZE, (start + length) / PAGE_SIZE)
    {
      hide Inv, Meta, AllLinked, Maximal, Buddy.AddRegion;
      var startPage := start / PAGE_SIZE;
      var endPage := (start + length) / PAGE_SIZE;
      EmptyStart(pages[..], freeLists[..], startPage, endPage);
      RegionInv(startPage, endPage);
      state := Empty(startPage);
      var i := startPage;
      while i < endPage
        invariant startPage <= i <= endPage && |state.lists| == MAX_ORDER
        invariant Valid() && state.hi == i && state.lo == startPage && state.used == map[] && Maximal(state, endPage)
        invariant Buddy.AddRegion(state, i, endPage) == Region(startPage, endPage)
      {
        i := AddBlock(i, endPage);
      }
      AddRegionDone(state, endPage);
    }

    /** The splitting loop of pmm_alloc_pages: the upper halves go back to the lists. */
    method SplitDown(page: nat, found: nat, order: nat)
      requires order <= found < MAX_ORDER == |state.lists| && Linkage() && Inv(state) && IsUsed(state, Block(page, found))
      requires Meta(pages[..], state, page)
      modifies this`state, pages, freeLists
      ensures |state.lists| == MAX_ORDER && Linkage() && Inv(state) && IsUsed(state, Block(page, order))
      ensures Meta(pages[..], state, page) && state == Carve(old(state), page, found, order)
    {
      hide Inv, Meta, AllLinked;
      var i := found;
      while i > order
        invariant order <= i < MAX_ORDER == |state.lists| && Linkage() && Inv(state) && IsUsed(state, Block(page, i))
        invariant Meta(pages[..], state, page)
        invariant Carve(state, page, i, order) == Carve(old(state), page, found, order)
      {
        BlockFits(pages[..], state, page, Block(page, i));
        i := i - 1;
        var buddyIdx := page + Pow2(i);
        ghost var ps, s := pages[..], state;
        UpperHalfUnused(s, page, i);
        ListFreeBlock(buddyIdx, i, state.lists);
        state := Halve(state, page, i);
        HalveKeeps(s, page, i);
        HalveMeta(ps, pages[..], s, page, i);
      }
    }

    /** pmm_alloc_pages: the address of a block of 2^order free pages, 0 if there is none. */
    method AllocPages(order: nat) returns (ptr: nat)
      requires Valid()
      modifies this`state, pages, freeLists
      ensures Valid() && state == Alloc(old(state), order).0 && ptr == Alloc(old(state), order).1 * PAGE_SIZE
    {
      var i := order;
      hide Inv, Meta, AllLinked, Bypassed;
      FullyListed(state);
      while i < MAX_ORDER
        invariant order <= i && Valid() && state == old(state) && |state.lists| == MAX_ORDER
        invariant FirstFit(state.lists, i) == FirstFit(state.lists, order)
      {
        ListHead(pages[..], freeLists[..], state.lists, i);
        if freeLists[i] != NIL {
          var page := freeLists[i];
          ghost var ps, s := pages[..], state;
          ListRemove(i, page, state.lists);
          state := Take(state, i);
          TakeKeeps(s, i);
          TakeMeta(ps, pages[..], s, i);
          SplitDown(page, i, order);
          ps := pages[..];
          BlockFits(ps, state, page, Block(page, order));
          pages[page] := pages[page].(flags := 1);
          pages[page] := pages[page].(order := order);
          RelabelLinked(ps, pages[..], freeLists[..], state.lists);
          GrantMeta(ps, pages[..], state, Block(page, order));
          return page * PAGE_SIZE;
        }
        i := i + 1;
      }
      return 0;
    }

    /** The end of pmm_free_pages: the merged block goes on its list. */
    method PutBack(pageIdx: nat, k: nat)
      requires k < MAX_ORDER == |state.lists| && Linkage() && Inv(state) && IsUsed(state, Block(pageIdx, k))
      requires Meta(pages[..], state, pageIdx) && (k + 1 < MAX_ORDER ==> !IsFree(state, Block(pageIdx, k).Mate()))
      modifies this`state, pages, freeLists
      ensures Valid() && state == Release(old(state), Block(pageIdx, k))
    {
      hide Inv, Meta, AllLinked, Relabelled;
      ghost var ps, s, b := pages[..], state, Block(pageIdx, k);
      BlockFits(ps, s, pageIdx, b);
      NotOnAnyList(s, b);
      ListFreeBlock(pageIdx, k, state.lists);
      state := Release(state, b);
      ReleaseKeeps(s, b);
      ReleaseMeta(ps, pages[..], s, b);
    }

    /** pmm_free_pages of a live allocation. */
    method FreePages(ptr: nat, order: nat)
      requires Valid() && IsUsed(state, Block(ptr / PAGE_SIZE, order))
      modifies this`state, pages, freeLists
      ensures order < MAX_ORDER == |old(state).lists|
      ensures Valid() && state == Free(old(state), Block(ptr / PAGE_SIZE, order))
    {
      var pageIdx: nat, k: nat := ptr / PAGE_SIZE, order;
      LivePlaced(state, Block(pageIdx, k));
      hide Inv, Meta, AllLinked, Relabelled, Bypassed;
      while k < MAX_ORDER - 1
        invariant k < MAX_ORDER == |state.lists| && Linkage() && Inv(state) && IsUsed(state, Block(pageIdx, k))
        invariant Meta(pages[..], state, pageIdx)
        invariant Free(state, Block(pageIdx, k)) == Free(old(state), Block(ptr / PAGE_SIZE, order))
      {
        var buddyIdx := Xor(pageIdx, Pow2(k));
        ghost var ps, s, b := pages[..], state, Block(pageIdx, k);
        MergeTestExact(ps, s, b);
        if buddyIdx >= totalPages || pages[buddyIdx].flags == 1 || pages[buddyIdx].order != k {
          break;
        }
        LivePlaced(s, b);
        Halves(b);
        ListRemove(k, buddyIdx, state.lists);
        state := Absorb(state, b);
        AbsorbKeeps(s, b);
        AbsorbMeta(ps, pages[..], s, b);
        if buddyIdx < pageIdx {
          pageIdx := buddyIdx;
        }
        k := k + 1;
      }
      PutBack(pageIdx, k);
    }
  }
}
