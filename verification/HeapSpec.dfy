/** The kernel heap of kheap.c on values: the address-ordered list of chunks, and what
    splitting, expanding, allocating and freeing do to it. Class Kheap.Heap refines this. */
module HeapSpec {
  import opened Words
  import Bits

  const H: nat := 20          // sizeof(header_t)

  /** A header at addr followed by a payload of size bytes. */
  datatype Chunk = Chunk(addr: nat, size: nat, hole: bool) {
    function Data(): nat {
      addr + H
    }

    function End(): nat {
      addr + H + size
    }
  }

  // ---------------------------------------------------------------- the elementary steps

  /** split_block: cut chunk i down to size, unless no payload byte would remain behind
      the new header. */
  function Split(hs: seq<Chunk>, i: nat, size: nat): seq<Chunk>
    requires i < |hs|
  {
    var c := hs[i];
    if c.size <= size + H then hs
    else
      hs[..i] + [c.(size := size), Chunk(c.addr + H + size, c.size - size - H, true)] + hs[i + 1..]
  }

  /** Chunk i swallows chunk i+1. */
  function Join(hs: seq<Chunk>, i: nat): seq<Chunk>
    requires i + 1 < |hs|
  {
    hs[..i] + [hs[i].(size := hs[i].size + hs[i + 1].size + H)] + hs[i + 2..]
  }

  function RoundUp(n: nat): (r: nat)
    ensures n <= r < n + PAGE_SIZE && r % PAGE_SIZE == 0
  {
    if n % 4096 != 0 then (n / 4096 + 1) * 4096 else n
  }

  /** expand_heap: n more bytes behind the last chunk, which ends at end. */
  function Extend(hs: seq<Chunk>, end: nat, n: nat): seq<Chunk>
    requires |hs| > 0 && n >= H
  {
    var last := hs[|hs| - 1];
    if last.hole then hs[|hs| - 1 := last.(size := last.size + n)]
    else hs + [Chunk(end, n - H, true)]
  }

  /** How far the data address of c is from the alignment asked for. */
  function Padding(c: Chunk, align: bool): (p: nat)
    ensures p < PAGE_SIZE
    ensures align ==> (c.Data() + p) % PAGE_SIZE == 0
    ensures !align ==> p == 0
  {
    if align then RoundUp(c.Data()) - c.Data() else 0
  }

  /** Rounding the data address up with masks, as the code does, gives the padding. The low
      twelve bits are tested, or cleared, bit by bit. */
  lemma PaddingByMask(c: Chunk, align: bool)
    ensures var d := c.Data();
      (if align && Bits.Base(d, 12) != d then Bits.Base(d + 0xFFF, 12) else d) == d + Padding(c, align)
  {
    hide Bits.Base;
    Bits.ClearLow12(c.Data());
    Bits.ClearLow12(c.Data() + 0xFFF);
  }

  /** The scan loop takes this chunk: a hole, big enough behind the padding, whose padding
      is either none or leaves room for a header and at least one byte. */
  predicate Suits(c: Chunk, size: nat, align: bool) {
    var p := Padding(c, align);
    c.hole && p + size <= c.size && (p == 0 || p > H)
  }

  /** Splitting off the padding in front goes through, because a byte remains behind it. Only a
      request for 0 bytes can meet a hole that is all padding. */
  predicate Clears(c: Chunk, align: bool) {
    Padding(c, align) > H ==> Padding(c, align) < c.size
  }

  /** A payload of size bytes can start at data address d: inside the hole, aligned if asked for,
      as far in front as can be, with no room in front or room for a header and a byte. */
  predicate FitsAt(c: Chunk, size: nat, align: bool, d: nat) {
    && c.hole && c.Data() <= d && d + size <= c.End()
    && (if align then d % PAGE_SIZE == 0 && d < c.Data() + PAGE_SIZE else d == c.Data())
    && (d == c.Data() || c.Data() + H < d)
  }

  lemma NextMultiple(a: nat, d: nat, e: nat, align: bool)
    requires a <= d < a + 4096 && a <= e < a + 4096
    ensures d % 4096 == 0 && e % 4096 == 0 ==> d == e
  {
  }

  lemma SuitsMeans(c: Chunk, size: nat, align: bool)
    ensures Suits(c, size, align) <==> exists d :: FitsAt(c, size, align, d)
  {
    var d := c.Data() + Padding(c, align);
    assert Suits(c, size, align) ==> FitsAt(c, size, align, d);
    forall e | FitsAt(c, size, align, e) ensures e == d {
      NextMultiple(c.Data(), d, e, align);
    }
  }

  /** First fit from chunk i on; |hs| if there is none. */
  function Scan(hs: seq<Chunk>, i: nat, size: nat, align: bool): (j: nat)
    requires i <= |hs|
    ensures i <= j <= |hs|
    ensures j < |hs| ==> Suits(hs[j], size, align)
    ensures forall k :: i <= k < j ==> !Suits(hs[k], size, align)
    decreases |hs| - i
  {
    if i == |hs| || Suits(hs[i], size, align) then i else Scan(hs, i + 1, size, align)
  }

  /** Where in the list the allocation carved from chunk j ends up. */
  function Slot(hs: seq<Chunk>, j: nat, align: bool): nat
    requires j < |hs|
  {
    if Padding(hs[j], align) > H then j + 1 else j
  }

  /** Split off the padding in front, as a hole of its own. */
  function CutFront(hs: seq<Chunk>, j: nat, align: bool): seq<Chunk>
    requires j < |hs|
  {
    var p := Padding(hs[j], align);
    if p > H then Split(hs, j, p - H) else hs
  }

  /** Carve an allocation out of chunk j. */
  function Place(hs: seq<Chunk>, j: nat, size: nat, align: bool): seq<Chunk>
    requires j < |hs| && Suits(hs[j], size, align) && Clears(hs[j], align)
  {
    var k := Slot(hs, j, align);
    var cut := Split(CutFront(hs, j, align), k, size);
    cut[k := cut[k].(hole := false)]
  }

  /** Chunk i swallows the chunk behind it if that is a hole. */
  function JoinNext(hs: seq<Chunk>, i: nat): seq<Chunk>
    requires i < |hs|
  {
    if i + 1 < |hs| && hs[i + 1].hole then Join(hs, i) else hs
  }

  /** Chunk i is swallowed by the chunk in front of it if that is a hole. */
  function JoinPrev(hs: seq<Chunk>, i: nat): seq<Chunk>
    requires i < |hs|
  {
    if i > 0 && hs[i - 1].hole then Join(hs, i - 1) else hs
  }

  /** kfree of chunk i. */
  function Free(hs: seq<Chunk>, i: nat): seq<Chunk>
    requires i < |hs|
  {
    JoinPrev(JoinNext(hs[i := hs[i].(hole := true)], i), i)
  }

  // ---------------------------------------------------------------- the invariant

  /** The chunks tile lo..hi: each ends where the next begins. */
  ghost predicate Tiles(hs: seq<Chunk>, lo: nat, hi: nat) {
    && |hs| > 0 && hs[0].addr == lo && hs[|hs| - 1].End() == hi
    && (forall i, j :: 0 <= i && j == i + 1 && j < |hs| ==> hs[i].End() == hs[j].addr)
  }

  ghost predicate Coalesced(hs: seq<Chunk>) {
    forall i, j :: 0 <= i && j == i + 1 && j < |hs| ==> !(hs[i].hole && hs[j].hole)
  }

  ghost predicate Inv(hs: seq<Chunk>, lo: nat, hi: nat) {
    Tiles(hs, lo, hi) && Coalesced(hs)
  }

  /** The last chunk has a byte, so that no chunk's data starts where the heap ends. */
  ghost predicate LastNotEmpty(hs: seq<Chunk>) {
    |hs| > 0 && hs[|hs| - 1].size > 0
  }

  ghost function Live(hs: seq<Chunk>): set<Chunk> {
    set c | c in hs && !c.hole
  }

  lemma SplitTiles(hs: seq<Chunk>, i: nat, size: nat, lo: nat, hi: nat)
    requires Tiles(hs, lo, hi) && i < |hs|
    ensures Tiles(Split(hs, i, size), lo, hi)
  {
  }

  lemma JoinTiles(hs: seq<Chunk>, i: nat, lo: nat, hi: nat)
    requires Tiles(hs, lo, hi) && i + 1 < |hs|
    ensures Tiles(Join(hs, i), lo, hi)
  {
  }

  lemma ExtendKeeps(hs: seq<Chunk>, lo: nat, hi: nat, n: nat)
    requires Inv(hs, lo, hi) && n >= H
    ensures Inv(Extend(hs, hi, n), lo, hi + n)
    ensures Live(Extend(hs, hi, n)) == Live(hs)
    ensures n > H ==> LastNotEmpty(Extend(hs, hi, n))
  {
  }

  // ---------------------------------------------------------------- allocation

  function Front(c: Chunk, align: bool): seq<Chunk> {
    var p := Padding(c, align);
    if p > H then [Chunk(c.addr, p - H, true)] else []
  }

  /** The allocation itself. A remainder too small for a header stays with it. */
  function Granted(c: Chunk, size: nat, align: bool): Chunk
    requires Suits(c, size, align)
  {
    var p := Padding(c, align);
    Chunk(c.addr + p, if c.size - p <= size + H then c.size - p else size, false)
  }

  function Tail(c: Chunk, size: nat, align: bool): seq<Chunk>
    requires Suits(c, size, align)
  {
    var p := Padding(c, align);
    if c.size - p <= size + H then [] else [Chunk(c.addr + p + H + size, c.size - p - size - H, true)]
  }

  /** What becomes of the chunk that split_block cuts. */
  function Cut(c: Chunk, size: int): (r: seq<Chunk>)
    ensures |r| > 0
  {
    if size < 0 || c.size <= size + H then [c]
    else [c.(size := size), Chunk(c.addr + H + size, c.size - size - H, true)]
  }

  lemma SplitAt(a: seq<Chunk>, c: Chunk, b: seq<Chunk>, size: int)
    ensures size >= 0 ==> Split(a + [c] + b, |a|, size) == a + Cut(c, size) + b
  {
    var hs := a + [c] + b;
    assert hs[|a|] == c && hs[..|a|] == a && hs[|a| + 1..] == b;
  }

  lemma MarkFirst(a: seq<Chunk>, m: seq<Chunk>, b: seq<Chunk>)
    requires m != []
    ensures var t := a + m + b;
      t[|a| := t[|a|].(hole := false)] == a + [m[0].(hole := false)] + m[1..] + b
  {
  }

  /** The two splits leave chunk j in up to three pieces and touch no other chunk. */
  lemma PlaceShape(hs: seq<Chunk>, j: nat, size: nat, align: bool)
    requires j < |hs| && Suits(hs[j], size, align) && Clears(hs[j], align)
    ensures Place(hs, j, size, align)
      == hs[..j] + Front(hs[j], align) + [Granted(hs[j], size, align)] + Tail(hs[j], size, align) + hs[j + 1..]
    ensures Slot(hs, j, align) == j + |Front(hs[j], align)|
  {
    hide Split;
    var c, p := hs[j], Padding(hs[j], align);
    var front, rest := Front(c, align), Chunk(c.addr + p, c.size - p, true);
    var k := j + |front|;
    assert hs == hs[..j] + [c] + hs[j + 1..];
    SplitAt(hs[..j], c, hs[j + 1..], p - H);
    assert CutFront(hs, j, align) == hs[..j] + front + [rest] + hs[j + 1..];
    SplitAt(hs[..j] + front, rest, hs[j + 1..], size);
    assert |hs[..j] + front| == k;
    MarkFirst(hs[..j] + front, Cut(rest, size), hs[j + 1..]);
  }

  /** Replacing chunks a..b by others that tile the same span. */
  lemma SpliceKeeps(hs: seq<Chunk>, a: nat, b: nat, mid: seq<Chunk>, lo: nat, hi: nat)
    requires Inv(hs, lo, hi) && a < b <= |hs|
    requires Inv(mid, hs[a].addr, hs[b - 1].End())
    requires a > 0 ==> !(hs[a - 1].hole && mid[0].hole)
    requires b < |hs| ==> !(mid[|mid| - 1].hole && hs[b].hole)
    ensures Inv(hs[..a] + mid + hs[b..], lo, hi)
  {
  }

  /** A hole, cut into an optional hole, an allocation and an optional hole. */
  lemma PiecesTile(c: Chunk, size: nat, align: bool)
    requires Suits(c, size, align)
    ensures var mid := Front(c, align) + [Granted(c, size, align)] + Tail(c, size, align);
      Inv(mid, c.addr, c.End())
  {
    hide Padding;
  }

  lemma NotBothHoles(hs: seq<Chunk>, lo: nat, hi: nat, i: nat)
    requires Inv(hs, lo, hi) && i + 1 < |hs|
    ensures !(hs[i].hole && hs[i + 1].hole) && hs[i].End() == hs[i + 1].addr
  {
  }

  lemma PlaceKeeps(hs: seq<Chunk>, j: nat, size: nat, align: bool, lo: nat, hi: nat)
    requires Inv(hs, lo, hi) && j < |hs| && Suits(hs[j], size, align) && Clears(hs[j], align)
    ensures Inv(Place(hs, j, size, align), lo, hi)
  {
    hide Place, Padding, Inv;
    var c := hs[j];
    PlaceShape(hs, j, size, align);
    PiecesTile(c, size, align);
    if j > 0 { NotBothHoles(hs, lo, hi, j - 1); }
    if j + 1 < |hs| { NotBothHoles(hs, lo, hi, j); }
    var mid := Front(c, align) + [Granted(c, size, align)] + Tail(c, size, align);
    SpliceKeeps(hs, j, j + 1, mid, lo, hi);
    assert hs[..j] + mid + hs[j + 1..] == Place(hs, j, size, align);
  }

  lemma GrantedBounds(c: Chunk, size: nat, align: bool)
    requires Suits(c, size, align)
    ensures var g := Granted(c, size, align);
      && !g.hole && size <= g.size <= size + H && c.addr <= g.addr && g.End() <= c.End()
      && (align ==> g.Data() % PAGE_SIZE == 0) && FitsAt(c, size, align, g.Data())
  {
  }

  lemma {:induction false} InOrder(hs: seq<Chunk>, lo: nat, hi: nat, i: nat, j: nat)
    requires Tiles(hs, lo, hi) && i <= j < |hs|
    ensures i < j ==> hs[i].End() <= hs[j].addr
    ensures i == j || hs[i].addr < hs[j].addr
  {
    if i + 1 < j {
      InOrder(hs, lo, hi, i, j - 1);
    }
  }

  /** Different chunks do not overlap. */
  lemma ChunksApart(hs: seq<Chunk>, lo: nat, hi: nat, c: Chunk, d: Chunk)
    requires Tiles(hs, lo, hi) && c in hs && d in hs
    ensures c == d || c.End() <= d.addr || d.End() <= c.addr
    ensures lo <= c.addr && c.End() <= hi
  {
    var i :| 0 <= i < |hs| && hs[i] == c;
    var j :| 0 <= j < |hs| && hs[j] == d;
    if i < j {
      InOrder(hs, lo, hi, i, j);
    } else if j < i {
      InOrder(hs, lo, hi, j, i);
    }
    InOrder(hs, lo, hi, 0, i);
    InOrder(hs, lo, hi, i, |hs| - 1);
  }

  lemma GrantedIsNew(hs: seq<Chunk>, j: nat, g: Chunk, lo: nat, hi: nat)
    requires Inv(hs, lo, hi) && j < |hs| && hs[j].hole
    requires !g.hole && hs[j].addr <= g.addr && g.End() <= hs[j].End()
    ensures g !in hs && g !in Live(hs)
  {
    if g in hs {
      ChunksApart(hs, lo, hi, g, hs[j]);
      assert false;
    }
  }

  lemma LiveSplice(a: seq<Chunk>, b: seq<Chunk>, c: seq<Chunk>)
    ensures Live(a + b + c) == Live(a) + Live(b) + Live(c)
  {
  }

  lemma PlaceLive(a: seq<Chunk>, c: Chunk, size: nat, align: bool, b: seq<Chunk>)
    requires Suits(c, size, align)
    ensures Live(a + Front(c, align) + [Granted(c, size, align)] + Tail(c, size, align) + b)
      == Live(a + [c] + b) + {Granted(c, size, align)}
  {
    var front, g, tail := Front(c, align), Granted(c, size, align), Tail(c, size, align);
    assert Live(front) == Live(tail) == Live([c]) == {} && Live([g]) == {g};
    hide Live, Front, Granted, Tail, Suits;
    LiveSplice(a, [c], b);
    LiveSplice(a + front, [g], tail + b);
    LiveSplice(a, front, []);
    LiveSplice(tail, b, []);
    assert a + front + [g] + tail + b == a + front + [g] + (tail + b);
    assert a + front + [] == a + front && tail + b + [] == tail + b;
  }

  lemma Regroup(hs: seq<Chunk>, a: nat, b: nat)
    requires a <= b <= |hs|
    ensures hs == hs[..a] + hs[a..b] + hs[b..]
    ensures b == a + 1 ==> hs[a..b] == [hs[a]]
  {
  }

  /** Exactly one allocation is added, carved from chunk j, at least size bytes long and
      aligned if that was asked for; every other live chunk stays as it is. */
  lemma PlaceGrants(hs: seq<Chunk>, j: nat, size: nat, align: bool, lo: nat, hi: nat)
    requires Inv(hs, lo, hi) && j < |hs| && Suits(hs[j], size, align) && Clears(hs[j], align)
    ensures var g := Granted(hs[j], size, align);
      && Live(Place(hs, j, size, align)) == Live(hs) + {g} && g !in Live(hs)
      && size <= g.size <= size + H && hs[j].addr <= g.addr && g.End() <= hs[j].End()
      && (align ==> g.Data() % PAGE_SIZE == 0) && FitsAt(hs[j], size, align, g.Data())
  {
    var c, g := hs[j], Granted(hs[j], size, align);
    PlaceShape(hs, j, size, align);
    GrantedBounds(c, size, align);
    GrantedIsNew(hs, j, g, lo, hi);
    hide *;
    PlaceLive(hs[..j], c, size, align, hs[j + 1..]);
    Regroup(hs, j, j + 1);
  }

  lemma GrantedApart(hs: seq<Chunk>, j: nat, g: Chunk, lo: nat, hi: nat)
    requires Inv(hs, lo, hi) && j < |hs| && hs[j].hole
    requires hs[j].addr <= g.addr && g.End() <= hs[j].End()
    ensures forall c :: c in Live(hs) ==> c.End() <= g.addr || g.End() <= c.addr
  {
    forall c | c in Live(hs) ensures c.End() <= g.addr || g.End() <= c.addr {
      ChunksApart(hs, lo, hi, c, hs[j]);
    }
  }

  // ---------------------------------------------------------------- freeing

  /** The first and one past the last chunk that end up in the hole left by freeing i. */
  function MergeFrom(hs: seq<Chunk>, i: nat): nat
    requires i < |hs|
  {
    if i > 0 && hs[i - 1].hole then i - 1 else i
  }

  function MergeTo(hs: seq<Chunk>, i: nat): nat
    requires i < |hs|
  {
    if i + 1 < |hs| && hs[i + 1].hole then i + 2 else i + 1
  }

  function Merged(hs: seq<Chunk>, i: nat): Chunk
    requires i < |hs| && hs[MergeTo(hs, i) - 1].End() >= hs[MergeFrom(hs, i)].addr + H
  {
    var a := hs[MergeFrom(hs, i)].addr;
    Chunk(a, hs[MergeTo(hs, i) - 1].End() - a - H, true)
  }

  lemma Neighbours(hs: seq<Chunk>, i: nat, lo: nat, hi: nat)
    requires Tiles(hs, lo, hi) && i < |hs|
    ensures i > 0 ==> hs[i - 1].End() == hs[i].addr
    ensures i + 1 < |hs| ==> hs[i].End() == hs[i + 1].addr
  {
  }

  lemma ForwardShape(hs: seq<Chunk>, i: nat, x: Chunk)
    requires i < |hs| && MergeTo(hs, i) <= |hs|
    requires i + 1 < |hs| ==> hs[i].End() == hs[i + 1].addr
    requires x.addr == hs[i].addr && x.hole && x.End() == hs[MergeTo(hs, i) - 1].End()
    ensures JoinNext(hs[i := hs[i].(hole := true)], i) == hs[..i] + [x] + hs[MergeTo(hs, i)..]
  {
  }

  lemma BackwardShape(front: seq<Chunk>, x: Chunk, rest: seq<Chunk>)
    requires front != [] ==> front[|front| - 1].End() == x.addr
    ensures JoinPrev(front + [x] + rest, |front|) ==
      if front == [] || !front[|front| - 1].hole then front + [x] + rest
      else
        var p := front[|front| - 1];
        front[..|front| - 1] + [Chunk(p.addr, x.End() - p.addr - H, true)] + rest
  {
  }

  /** kfree leaves one hole over the freed chunk and the holes next to it. */
  lemma FreeShape(hs: seq<Chunk>, i: nat, lo: nat, hi: nat)
    requires Tiles(hs, lo, hi) && i < |hs|
    ensures hs[MergeTo(hs, i) - 1].End() >= hs[MergeFrom(hs, i)].addr + H
    ensures Free(hs, i) == hs[..MergeFrom(hs, i)] + [Merged(hs, i)] + hs[MergeTo(hs, i)..]
  {
    hide Tiles, JoinNext, JoinPrev;
    Neighbours(hs, i, lo, hi);
    var a, b := MergeFrom(hs, i), MergeTo(hs, i);
    var x := Chunk(hs[i].addr, hs[b - 1].End() - hs[i].addr - H, true);
    ForwardShape(hs, i, x);
    BackwardShape(hs[..i], x, hs[b..]);
    assert Free(hs, i) == JoinPrev(hs[..i] + [x] + hs[b..], |hs[..i]|);
    assert a < i ==> hs[..i][..i - 1] == hs[..a] && hs[..i][i - 1] == hs[a];
  }

  lemma SingleKeeps(x: Chunk)
    ensures Inv([x], x.addr, x.End())
  {
  }

  lemma FreeKeeps(hs: seq<Chunk>, i: nat, lo: nat, hi: nat)
    requires Inv(hs, lo, hi) && i < |hs| && !hs[i].hole
    ensures Inv(Free(hs, i), lo, hi)
  {
    hide Free, Tiles, Coalesced;
    FreeShape(hs, i, lo, hi);
    var a, b, x := MergeFrom(hs, i), MergeTo(hs, i), Merged(hs, i);
    if a > 0 { NotBothHoles(hs, lo, hi, a - 1); }
    if b < |hs| { NotBothHoles(hs, lo, hi, b - 1); }
    SingleKeeps(x);
    SpliceKeeps(hs, a, b, [x], lo, hi);
  }

  lemma LiveReplace(front: seq<Chunk>, mid: seq<Chunk>, mid': seq<Chunk>, back: seq<Chunk>, c: Chunk)
    requires Live(mid) == {c} && Live(mid') == {} && c !in Live(front) && c !in Live(back)
    ensures Live(front + mid' + back) == Live(front + mid + back) - {c}
  {
    LiveSplice(front, mid, back);
    LiveSplice(front, mid', back);
    hide Live;
  }

  lemma NoDuplicates(hs: seq<Chunk>, lo: nat, hi: nat, i: nat)
    requires Tiles(hs, lo, hi) && i < |hs|
    ensures hs[i] !in hs[..i] && hs[i] !in hs[i + 1..]
  {
    forall j | 0 <= j < |hs| && j != i ensures hs[j] != hs[i] {
      if j < i { InOrder(hs, lo, hi, j, i); } else { InOrder(hs, lo, hi, i, j); }
    }
  }

  lemma OutsideMerge(hs: seq<Chunk>, i: nat, lo: nat, hi: nat)
    requires Tiles(hs, lo, hi) && i < |hs|
    ensures hs[i] !in Live(hs[..MergeFrom(hs, i)]) && hs[i] !in Live(hs[MergeTo(hs, i)..])
  {
    NoDuplicates(hs, lo, hi, i);
  }

  lemma MergedLive(hs: seq<Chunk>, i: nat)
    requires i < |hs| && !hs[i].hole
    ensures Live(hs[MergeFrom(hs, i)..MergeTo(hs, i)]) == {hs[i]}
  {
    var a, b := MergeFrom(hs, i), MergeTo(hs, i);
    var m := hs[a..b];
    assert m[i - a] == hs[i];
    forall c | c in m && !c.hole ensures c == hs[i] {
      var j :| 0 <= j < |m| && m[j] == c;
      assert m[j] == hs[a + j];
    }
  }

  /** Exactly the freed chunk leaves the live ones. */
  lemma FreeLive(hs: seq<Chunk>, i: nat, lo: nat, hi: nat)
    requires Inv(hs, lo, hi) && i < |hs| && !hs[i].hole
    ensures Live(Free(hs, i)) == Live(hs) - {hs[i]}
  {
    var a, b := MergeFrom(hs, i), MergeTo(hs, i);
    FreeShape(hs, i, lo, hi);
    OutsideMerge(hs, i, lo, hi);
    MergedLive(hs, i);
    assert Live([Merged(hs, i)]) == {};
    hide *;
    Regroup(hs, a, b);
    LiveReplace(hs[..a], hs[a..b], [Merged(hs, i)], hs[b..], hs[i]);
  }

  lemma DataInside(hs: seq<Chunk>, lo: nat, hi: nat, i: nat)
    requires Tiles(hs, lo, hi) && LastNotEmpty(hs) && i < |hs|
    ensures lo < hs[i].Data() < hi
  {
    InOrder(hs, lo, hi, 0, i);
    InOrder(hs, lo, hi, i, |hs| - 1);
  }

  lemma PlaceNotEmpty(hs: seq<Chunk>, j: nat, size: nat, align: bool)
    requires j < |hs| && Suits(hs[j], size, align) && Clears(hs[j], align) && LastNotEmpty(hs)
    ensures LastNotEmpty(Place(hs, j, size, align))
  {
    hide Place, Padding;
    PlaceShape(hs, j, size, align);
    assert j + 1 < |hs| ==> hs[|hs| - 1] == hs[j + 1..][|hs| - j - 2];
  }

  lemma FreeNotEmpty(hs: seq<Chunk>, i: nat, lo: nat, hi: nat)
    requires Inv(hs, lo, hi) && i < |hs| && LastNotEmpty(hs)
    ensures LastNotEmpty(Free(hs, i))
  {
    hide Free, Tiles;
    FreeShape(hs, i, lo, hi);
    var a, b := MergeFrom(hs, i), MergeTo(hs, i);
    InOrder(hs, lo, hi, a, b - 1);
    assert b < |hs| ==> hs[|hs| - 1] == hs[b..][|hs| - b - 1];
  }

  lemma HoleNeighbours(hs: seq<Chunk>, j: nat, lo: nat, hi: nat)
    requires Inv(hs, lo, hi) && j < |hs| && hs[j].hole
    ensures hs[..j] != [] ==> !hs[..j][|hs[..j]| - 1].hole
    ensures hs[j + 1..] != [] ==> !hs[j + 1..][0].hole
  {
    if j > 0 { NotBothHoles(hs, lo, hi, j - 1); }
    if j + 1 < |hs| { NotBothHoles(hs, lo, hi, j); }
  }

  lemma PiecesMerge(a: seq<Chunk>, c: Chunk, size: nat, align: bool, b: seq<Chunk>)
    requires Suits(c, size, align)
    requires a != [] ==> !a[|a| - 1].hole
    requires b != [] ==> !b[0].hole
    ensures
      var t := a + Front(c, align) + [Granted(c, size, align)] + Tail(c, size, align) + b;
      var k := |a| + |Front(c, align)|;
      && MergeFrom(t, k) == |a| && t[..|a|] == a && t[|a|].addr == c.addr
      && MergeTo(t, k) == |t| - |b| && t[|t| - |b|..] == b && t[|t| - |b| - 1].End() == c.End()
  {
    hide Padding;
    var front, g, tail := Front(c, align), Granted(c, size, align), Tail(c, size, align);
    var t, k := a + front + [g] + tail + b, |a| + |front|;
    assert t[k] == g;
    assert |tail| == 1 ==> t[k + 1] == tail[0];
    assert |tail| == 0 && b != [] ==> t[k + 1] == b[0];
  }

  lemma FreePieces(a: seq<Chunk>, c: Chunk, size: nat, align: bool, b: seq<Chunk>, lo: nat, hi: nat)
    requires Suits(c, size, align)
    requires a != [] ==> !a[|a| - 1].hole
    requires b != [] ==> !b[0].hole
    requires Tiles(a + Front(c, align) + [Granted(c, size, align)] + Tail(c, size, align) + b, lo, hi)
    ensures Free(a + Front(c, align) + [Granted(c, size, align)] + Tail(c, size, align) + b, |a| + |Front(c, align)|)
      == a + [c] + b
  {
    hide Front, Granted, Tail, Padding, Free, Tiles, MergeFrom, MergeTo;
    PiecesMerge(a, c, size, align, b);
    var t := a + Front(c, align) + [Granted(c, size, align)] + Tail(c, size, align) + b;
    var k := |a| + |Front(c, align)|;
    FreeShape(t, k, lo, hi);
    assert Merged(t, k) == c;
  }

  /** Freeing an allocation just carved out restores the list exactly, merging the padding
      in front, the allocation, and the rest behind it. */
  lemma RoundTrip(hs: seq<Chunk>, j: nat, size: nat, align: bool, lo: nat, hi: nat)
    requires Inv(hs, lo, hi) && j < |hs| && Suits(hs[j], size, align) && Clears(hs[j], align)
    ensures Free(Place(hs, j, size, align), Slot(hs, j, align)) == hs
  {
    hide Free, Place, Slot, Front, Granted, Tail, Padding, Tiles, Coalesced;
    PlaceShape(hs, j, size, align);
    PlaceKeeps(hs, j, size, align, lo, hi);
    HoleNeighbours(hs, j, lo, hi);
    FreePieces(hs[..j], hs[j], size, align, hs[j + 1..], lo, hi);
    Regroup(hs, j, j + 1);
  }

  /** A heap with nothing live is one hole over its whole span. */
  lemma NothingLive(hs: seq<Chunk>, lo: nat, hi: nat)
    requires Inv(hs, lo, hi) && Live(hs) == {}
    ensures hi >= lo + H && hs == [Chunk(lo, hi - lo - H, true)]
  {
    assert |hs| > 1 ==> !(hs[0].hole && hs[1].hole);
    forall i | 0 <= i < |hs| ensures hs[i].hole {
      assert hs[i] in hs && hs[i] !in Live(hs);
    }
    if |hs| > 1 {
      assert false;
    }
  }

  /** The first hole of one list is at least as long as that of another with the same live
      chunks: behind it comes a live chunk, which the other hole must not overlap. */
  lemma HoleReaches(hs: seq<Chunk>, hs': seq<Chunk>, lo: nat, hi: nat)
    requires Inv(hs, lo, hi) && Inv(hs', lo, hi) && Live(hs) == Live(hs') && hs[0].hole && hs'[0].hole
    ensures hs'[0].End() <= hs[0].End()
  {
    ChunksApart(hs', lo, hi, hs'[0], hs'[0]);
    if |hs| > 1 {
      NotBothHoles(hs, lo, hi, 0);
      assert hs[1] in Live(hs');
      ChunksApart(hs', lo, hi, hs[1], hs'[0]);
    }
  }

  lemma FirstIsLive(hs: seq<Chunk>, hs': seq<Chunk>, lo: nat, hi: nat)
    requires Inv(hs, lo, hi) && Inv(hs', lo, hi) && Live(hs) == Live(hs') && !hs[0].hole
    ensures hs[0] == hs'[0]
  {
    assert hs[0] in Live(hs');
    ChunksApart(hs', lo, hi, hs[0], hs'[0]);
  }

  lemma TailKeeps(hs: seq<Chunk>, lo: nat, hi: nat)
    requires Inv(hs, lo, hi)
    ensures hs[0].End() <= hi && (|hs| == 1 <==> hs[0].End() == hi)
    ensures |hs| > 1 ==> Inv(hs[1..], hs[0].End(), hi) && Live(hs[1..]) == Live(hs) - {hs[0]}
  {
    ChunksApart(hs, lo, hi, hs[0], hs[0]);
    NoDuplicates(hs, lo, hi, 0);
    if |hs| > 1 {
      ChunksApart(hs, lo, hi, hs[1], hs[1]);
      assert hs == [hs[0]] + hs[1..];
    }
  }

  /** The list is a function of the live chunks and the span: everything between two of them
      is one hole. */
  lemma {:induction false} DeterminedByLive(hs: seq<Chunk>, hs': seq<Chunk>, lo: nat, hi: nat)
    requires Inv(hs, lo, hi) && Inv(hs', lo, hi) && Live(hs) == Live(hs')
    ensures hs == hs'
    decreases |hs|
  {
    if hs[0].hole && hs'[0].hole {
      HoleReaches(hs, hs', lo, hi);
      HoleReaches(hs', hs, lo, hi);
    } else if !hs[0].hole {
      FirstIsLive(hs, hs', lo, hi);
    } else {
      FirstIsLive(hs', hs, lo, hi);
    }
    TailKeeps(hs, lo, hi);
    TailKeeps(hs', lo, hi);
    hide Inv, Live;
    assert hs == [hs[0]] + hs[1..] && hs' == [hs'[0]] + hs'[1..];
    if |hs| > 1 {
      DeterminedByLive(hs[1..], hs'[1..], hs[0].End(), hi);
    }
  }

  /** All payload bytes plus all headers make up the span. */
  function Bytes(hs: seq<Chunk>): nat {
    if hs == [] then 0 else Bytes(hs[..|hs| - 1]) + H + hs[|hs| - 1].size
  }

  lemma {:induction false} SpanIsFull(hs: seq<Chunk>, lo: nat, hi: nat)
    requires Tiles(hs, lo, hi)
    ensures Bytes(hs) == hi - lo
  {
    var n := |hs| - 1;
    if n > 0 {
      assert hs[n - 1].End() == hs[n].addr;
      SpanIsFull(hs[..n], lo, hs[n].addr);
    } else {
      assert Bytes(hs[..0]) == 0;
    }
  }

  // ---------------------------------------------------------------- growth

  /** What kmalloc_internal asks expand_heap for when the scan fails. */
  function Growth(size: nat, align: bool): nat {
    RoundUp(size + (if align then PAGE_SIZE else 0) + H)
  }

  /** It is the least number of whole pages for the request, its header, and a page more if it
      is to be aligned. */
  lemma GrowthIsLeast(size: nat, align: bool)
    ensures var need := size + (if align then PAGE_SIZE else 0) + H;
      Growth(size, align) % 4096 == 0 && need <= Growth(size, align) < need + 4096
  {
  }

  /** The heap kmalloc_internal serves the request from: grown once if nothing fits. */
  function Grown(hs: seq<Chunk>, end: nat, size: nat, align: bool): seq<Chunk>
    requires |hs| > 0
  {
    if Scan(hs, 0, size, align) < |hs| then hs else Extend(hs, end, Growth(size, align))
  }

  function GrownEnd(hs: seq<Chunk>, end: nat, size: nat, align: bool): nat {
    if Scan(hs, 0, size, align) < |hs| then end else end + Growth(size, align)
  }

  /** The last chunk is a hole whose padding is too small for a header. Expanding the heap
      lengthens this hole, but does not move its data address. */
  predicate Stuck(hs: seq<Chunk>, align: bool)
    requires |hs| > 0
  {
    var last := hs[|hs| - 1];
    last.hole && 0 < Padding(last, align) <= H
  }

  /** Whether the lengthened, or new, last hole suits. */
  lemma LastSuits(hs: seq<Chunk>, hi: nat, c: Chunk, size: nat, align: bool)
    requires |hs| > 0 && hi % PAGE_SIZE == 0 && c.hole
    requires var last, n := hs[|hs| - 1], Growth(size, align);
      if last.hole then c.addr == last.addr && c.size == last.size + n else c.addr == hi && c.size == n - H
    ensures Suits(c, size, align) <==> !Stuck(hs, align)
    ensures Clears(c, align)
  {
    var last := hs[|hs| - 1];
    assert last.hole ==> Padding(c, align) == Padding(last, align);
    assert !last.hole && align ==> Padding(c, align) == PAGE_SIZE - H;
  }

  /** After a failed scan, one expansion makes room exactly when the heap is not stuck. */
  lemma OneExpansion(hs: seq<Chunk>, lo: nat, hi: nat, size: nat, align: bool)
    requires Inv(hs, lo, hi) && hi % PAGE_SIZE == 0
    requires Scan(hs, 0, size, align) == |hs|
    ensures var t := Extend(hs, hi, Growth(size, align));
      && |t| > 0 && Scan(t, 0, size, align) == (if Stuck(hs, align) then |t| else |t| - 1)
      && Clears(t[|t| - 1], align)
  {
    var n := Growth(size, align);
    var t, last := Extend(hs, hi, n), hs[|hs| - 1];
    var k := |t| - 1;
    assert forall i :: 0 <= i < k ==> t[i] == hs[i];
    assert last.hole ==> Padding(t[k], align) == Padding(last, align);
    assert !last.hole ==> t[k].addr == hi;
    LastSuits(hs, hi, t[k], size, align);
    hide Extend, Stuck, Padding, Suits, Growth, Clears;
  }

  /** The heap after k rounds of growing. */
  function ExtendTimes(hs: seq<Chunk>, hi: nat, n: nat, k: nat): (t: seq<Chunk>)
    requires |hs| > 0 && n >= H
    ensures |t| > 0
  {
    if k == 0 then hs else Extend(ExtendTimes(hs, hi, n, k - 1), hi + (k - 1) * n, n)
  }

  /** A stuck heap on which the scan fails stays so however often it is expanded: the
      recursion of kmalloc_internal never ends. */
  lemma {:induction false} StuckForever(hs: seq<Chunk>, hi: nat, size: nat, align: bool, k: nat)
    requires |hs| > 0 && Stuck(hs, align) && Scan(hs, 0, size, align) == |hs|
    ensures var t := ExtendTimes(hs, hi, Growth(size, align), k);
      Stuck(t, align) && Scan(t, 0, size, align) == |t|
  {
    if k > 0 {
      StuckForever(hs, hi, size, align, k - 1);
      var t := ExtendTimes(hs, hi, Growth(size, align), k - 1);
      var u := ExtendTimes(hs, hi, Growth(size, align), k);
      assert u == t[|t| - 1 := u[|t| - 1]];
      assert Padding(u[|t| - 1], align) == Padding(t[|t| - 1], align);
    }
  }

  // ---------------------------------------------------------------- whole runs

  datatype Op = Kmalloc(size: nat, align: bool) | Kfree(i: nat)

  /** The list and where the mapped heap ends. */
  datatype Heap = Heap(chunks: seq<Chunk>, end: nat)

  ghost predicate Reachable(h: Heap, lo: nat) {
    Inv(h.chunks, lo, h.end) && LastNotEmpty(h.chunks) && h.end % 4096 == 0
  }

  ghost predicate Legal(h: Heap, op: Op) {
    match op
    case Kmalloc(size, align) =>
      |h.chunks| > 0 &&
      var j := Scan(h.chunks, 0, size, align);
      if j == |h.chunks| then !Stuck(h.chunks, align) else Clears(h.chunks[j], align)
    case Kfree(i) => i < |h.chunks| && !h.chunks[i].hole
  }

  lemma GrowthIsWhole(size: nat, align: bool)
    ensures Growth(size, align) % 4096 == 0 && Growth(size, align) > H
  {
  }

  lemma GrownSuits(h: Heap, size: nat, align: bool, lo: nat)
    requires Reachable(h, lo) && Legal(h, Kmalloc(size, align))
    ensures var hs := Grown(h.chunks, h.end, size, align);
      && Scan(hs, 0, size, align) < |hs| && Clears(hs[Scan(hs, 0, size, align)], align)
      && Inv(hs, lo, GrownEnd(h.chunks, h.end, size, align)) && Live(hs) == Live(h.chunks)
      && GrownEnd(h.chunks, h.end, size, align) % 4096 == 0 && LastNotEmpty(hs)
  {
    var n := Growth(size, align);
    hide Inv, Extend, Stuck, Live, Growth, Padding, Suits, Clears;
    if Scan(h.chunks, 0, size, align) == |h.chunks| {
      OneExpansion(h.chunks, lo, h.end, size, align);
      GrowthIsWhole(size, align);
      ExtendKeeps(h.chunks, lo, h.end, n);
      assert (h.end + n) % 4096 == 0;
    }
  }

  ghost function Step(h: Heap, op: Op, lo: nat): Heap
    requires Reachable(h, lo) && Legal(h, op)
  {
    match op
    case Kmalloc(size, align) =>
      var hs := Grown(h.chunks, h.end, size, align);
      GrownSuits(h, size, align, lo);
      Heap(Place(hs, Scan(hs, 0, size, align), size, align), GrownEnd(h.chunks, h.end, size, align))
    case Kfree(i) => Heap(Free(h.chunks, i), h.end)
  }

  /** One call keeps the tiling and the coalescing, adds exactly one allocation or removes
      exactly the freed one, and moves no other; a new allocation overlaps no live one. */
  lemma StepKeeps(h: Heap, op: Op, lo: nat)
    requires Reachable(h, lo) && Legal(h, op)
    ensures Reachable(Step(h, op, lo), lo)
    ensures op.Kfree? ==> Live(Step(h, op, lo).chunks) == Live(h.chunks) - {h.chunks[op.i]}
    ensures op.Kmalloc? ==> exists g ::
      (&& g !in Live(h.chunks) && Live(Step(h, op, lo).chunks) == Live(h.chunks) + {g}
       && op.size <= g.size <= op.size + H && (op.align ==> g.Data() % PAGE_SIZE == 0)
       && (forall c :: c in Live(h.chunks) ==> c.End() <= g.addr || g.End() <= c.addr))
  {
    match op
    case Kmalloc(size, align) =>
      GrownSuits(h, size, align, lo);
      var hs, end := Grown(h.chunks, h.end, size, align), GrownEnd(h.chunks, h.end, size, align);
      var j := Scan(hs, 0, size, align);
      PlaceKeeps(hs, j, size, align, lo, end);
      PlaceNotEmpty(hs, j, size, align);
      PlaceGrants(hs, j, size, align, lo, end);
      GrantedApart(hs, j, Granted(hs[j], size, align), lo, end);
    case Kfree(i) =>
      FreeKeeps(h.chunks, i, lo, h.end);
      FreeNotEmpty(h.chunks, i, lo, h.end);
      FreeLive(h.chunks, i, lo, h.end);
      hide Free, Live, Inv;
  }

  lemma LowestSuiting(hs: seq<Chunk>, size: nat, align: bool, lo: nat, hi: nat)
    requires Inv(hs, lo, hi) && Scan(hs, 0, size, align) < |hs|
    ensures forall b :: b in hs && Suits(b, size, align) ==> hs[Scan(hs, 0, size, align)].addr <= b.addr
  {
    hide Suits;
    var j := Scan(hs, 0, size, align);
    forall b | b in hs && Suits(b, size, align) ensures hs[j].addr <= b.addr {
      var i :| 0 <= i < |hs| && hs[i] == b;
      InOrder(hs, lo, hi, j, i);
    }
  }

  /** First fit: a request is served from the suiting hole c of the lowest address, and the heap
      grows only if there is none; then c is the hole at its end. */
  lemma LowestFit(h: Heap, size: nat, align: bool, lo: nat) returns (c: Chunk, g: Chunk)
    requires Reachable(h, lo) && Legal(h, Kmalloc(size, align))
    ensures var r := Step(h, Kmalloc(size, align), lo);
      && g !in Live(h.chunks) && Live(r.chunks) == Live(h.chunks) + {g}
      && size <= g.size <= size + H && FitsAt(c, size, align, g.Data())
      && (forall b :: b in h.chunks && Suits(b, size, align) ==> c in h.chunks && c.addr <= b.addr && r.end == h.end)
      && ((forall b :: b in h.chunks ==> !Suits(b, size, align)) ==> r.end == h.end + Growth(size, align) && c.End() == r.end)
  {
    GrownSuits(h, size, align, lo);
    var hs, end := Grown(h.chunks, h.end, size, align), GrownEnd(h.chunks, h.end, size, align);
    var i, j := Scan(h.chunks, 0, size, align), Scan(hs, 0, size, align);
    c, g := hs[j], Granted(hs[j], size, align);
    PlaceGrants(hs, j, size, align, lo, end);
    if i < |h.chunks| {
      LowestSuiting(h.chunks, size, align, lo, h.end);
      assert h.chunks[i] in h.chunks;
    } else {
      OneExpansion(h.chunks, lo, h.end, size, align);
    }
    hide Coalesced, Suits, Place, Extend, Live, Growth, Granted, Padding, Stuck, FitsAt;
  }

  ghost predicate LegalRun(h: Heap, ops: seq<Op>, lo: nat)
    requires Reachable(h, lo)
    decreases |ops|
  {
    ops == [] || (Legal(h, ops[0]) && (StepKeeps(h, ops[0], lo); LegalRun(Step(h, ops[0], lo), ops[1..], lo)))
  }

  ghost function Run(h: Heap, ops: seq<Op>, lo: nat): Heap
    requires Reachable(h, lo) && LegalRun(h, ops, lo)
    decreases |ops|
  {
    if ops == [] then h else StepKeeps(h, ops[0], lo); Run(Step(h, ops[0], lo), ops[1..], lo)
  }

  lemma AllAccounted(h: Heap, lo: nat)
    requires Reachable(h, lo)
    ensures Bytes(h.chunks) == h.end - lo
    ensures Live(h.chunks) == {} ==> h.end >= lo + H && h.chunks == [Chunk(lo, h.end - lo - H, true)]
  {
    SpanIsFull(h.chunks, lo, h.end);
    if Live(h.chunks) == {} { NothingLive(h.chunks, lo, h.end); }
  }

  /** After any run: chunks and headers fill the span, no two holes touch, and once nothing
      is live there is one hole over everything mapped. */
  lemma {:induction false} RunKeeps(h: Heap, ops: seq<Op>, lo: nat)
    requires Reachable(h, lo) && LegalRun(h, ops, lo)
    ensures var r := Run(h, ops, lo);
      && Reachable(r, lo) && Bytes(r.chunks) == r.end - lo
      && (Live(r.chunks) == {} ==> r.end >= lo + H && r.chunks == [Chunk(lo, r.end - lo - H, true)])
    decreases |ops|
  {
    hide Step, Legal, Reachable, Live, Bytes;
    if ops == [] {
      AllAccounted(h, lo);
    } else {
      StepKeeps(h, ops[0], lo);
      RunKeeps(Step(h, ops[0], lo), ops[1..], lo);
    }
  }

  /** Two runs that leave the same chunks live, and the heap of the same size, leave the same
      list, in whatever order the calls came. */
  lemma RunsAgree(h: Heap, ops: seq<Op>, ops': seq<Op>, lo: nat)
    requires Reachable(h, lo) && LegalRun(h, ops, lo) && LegalRun(h, ops', lo)
    requires Live(Run(h, ops, lo).chunks) == Live(Run(h, ops', lo).chunks) && Run(h, ops, lo).end == Run(h, ops', lo).end
    ensures Run(h, ops, lo) == Run(h, ops', lo)
  {
    hide Run, LegalRun, Live, Inv;
    RunKeeps(h, ops, lo);
    RunKeeps(h, ops', lo);
    DeterminedByLive(Run(h, ops, lo).chunks, Run(h, ops', lo).chunks, lo, Run(h, ops, lo).end);
  }

  // ---------------------------------------------------------------- where kmalloc_a fails

  /** The heap as kheap_init leaves it. */
  function Initial(): Heap {
    Heap([Chunk(0xD000_0000, 0x10_0000 - 20, true)], 0xD010_0000)
  }

  /** The initial heap after one allocation that leaves a hole of rest bytes at its end. */
  lemma AfterFirst(rest: nat)
    requires 0 < rest <= 4096
    ensures Reachable(Initial(), 0xD000_0000) && Legal(Initial(), Kmalloc(0x10_0000 - 40 - rest, false))
    ensures var h := Step(Initial(), Kmalloc(0x10_0000 - 40 - rest, false), 0xD000_0000);
      h == Heap([Chunk(0xD000_0000, 0x10_0000 - 40 - rest, false), Chunk(0xD010_0000 - 20 - rest, rest, true)], 0xD010_0000)
  {
    var size := 0x10_0000 - 40 - rest;
    var c := Initial().chunks[0];
    assert Scan(Initial().chunks, 0, size, false) == 0;
    PlaceShape(Initial().chunks, 0, size, false);
    assert Tail(c, size, false) == [Chunk(0xD010_0000 - 20 - rest, rest, true)];
  }

  /** One kmalloc can leave the initial heap stuck, and then no number of expansions helps
      kmalloc_a. */
  lemma StuckReached(k: nat)
    ensures Reachable(Initial(), 0xD000_0000) && Legal(Initial(), Kmalloc(0x10_0000 - 48, false))
    ensures var hs := Step(Initial(), Kmalloc(0x10_0000 - 48, false), 0xD000_0000).chunks;
      && |hs| > 0 && Scan(hs, 0, 1, true) == |hs| && Stuck(hs, true)
      && var t := ExtendTimes(hs, 0xD010_0000, Growth(1, true), k);
        Stuck(t, true) && Scan(t, 0, 1, true) == |t|
  {
    AfterFirst(8);
    var hs := [Chunk(0xD000_0000, 0x10_0000 - 48, false), Chunk(0xD010_0000 - 28, 8, true)];
    assert Padding(hs[1], true) == 8;
    assert Scan(hs, 2, 1, true) == 2;
    assert Scan(hs, 1, 1, true) == 2;
    assert Scan(hs, 0, 1, true) == 2;
    hide Step, Legal, Scan, Stuck;
    StuckForever(hs, 0xD010_0000, 1, true, k);
  }

  /** A hole that suits is all padding exactly if nothing was asked for and the padding takes
      it up. Then the first split is refused, and the code goes on to serve the request
      from the next chunk as if it were the hole: there is none, or it is live. */
  lemma AllPadding(hs: seq<Chunk>, j: nat, size: nat, align: bool, lo: nat, hi: nat)
    requires Inv(hs, lo, hi) && j < |hs| && Suits(hs[j], size, align)
    ensures !Clears(hs[j], align) <==> size == 0 && hs[j].size == Padding(hs[j], align) > H
    ensures !Clears(hs[j], align) ==>
      Split(hs, j, Padding(hs[j], align) - H) == hs && (j + 1 == |hs| || !hs[j + 1].hole)
  {
    if j + 1 < |hs| { NotBothHoles(hs, lo, hi, j); }
  }

  /** After one kmalloc, kmalloc_a(0) can meet such a hole, the last chunk of the heap. */
  lemma AllPaddingReached()
    ensures Reachable(Initial(), 0xD000_0000) && Legal(Initial(), Kmalloc(0x10_0000 - 140, false))
    ensures var h := Step(Initial(), Kmalloc(0x10_0000 - 140, false), 0xD000_0000);
      && |h.chunks| == 2 && Scan(h.chunks, 0, 0, true) == 1 && !Clears(h.chunks[1], true)
      && !Legal(h, Kmalloc(0, true))
  {
    AfterFirst(100);
    var hs := [Chunk(0xD000_0000, 0x10_0000 - 140, false), Chunk(0xD010_0000 - 120, 100, true)];
    assert Padding(hs[1], true) == 100;
    assert Scan(hs, 1, 0, true) == 1;
    assert Scan(hs, 0, 0, true) == 1;
    hide Step;
  }

  /** The code adds padding and size in 32 bits. Its test of a chunk is right exactly if the sum
      does not wrap around, or what is left of it does not fit either. */
  lemma TestIsRight(c: Chunk, size: nat, align: bool)
    requires size < LIMIT && c.size < LIMIT
    ensures ((Padding(c, align) + size) % LIMIT <= c.size <==> Padding(c, align) + size <= c.size)
      <==> Padding(c, align) + size < LIMIT || c.size < Padding(c, align) + size - LIMIT
  {
    var sum := Padding(c, align) + size;
    assert sum % 0x1_0000_0000 == if sum < 0x1_0000_0000 then sum else sum - 0x1_0000_0000;
  }

  /** It lets the heap of kheap_init pass for kmalloc_a(0xFFFF_FFFF). */
  lemma TestFails()
    ensures var c, size := Initial().chunks[0], 0xFFFF_FFFF;
      (Padding(c, true) + size) % LIMIT <= c.size < Padding(c, true) + size
  {
    assert Padding(Initial().chunks[0], true) == PAGE_SIZE - H;
  }
}
