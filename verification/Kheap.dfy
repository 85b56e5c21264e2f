/** src/kernel/mm/kheap.c: the heap in byte memory. The headers live inside the memory they
    describe; every operation reads and writes their fields in place. */
module Kheap {
  import opened HeapPages
  import opened HeapSpec
  import opened Options
  import opened Reach
  import opened Words
  import Bits
  import Vmm

  const KHEAP_START: nat := 0xD000_0000
  const KHEAP_INITIAL_SIZE: nat := 0x10_0000
  const KHEAP_MAGIC: nat := 0x1234_5678
  const NULL: nat := 0

  // ---------------------------------------------------------------- headers in memory

  /** header_t: magic at offset 0, is_hole (one byte) at 4, size at 8, next at 12, prev at
      16. Links are addresses, NULL when there is none. */
  datatype Header = Header(magic: nat, isHole: nat, size: nat, next: nat, prev: nat)

  /** A whole header fits into m at address a. */
  predicate Mapped(m: seq<byte>, a: nat) {
    KHEAP_START <= a && a + H <= KHEAP_START + |m|
  }

  function ReadHeader(m: seq<byte>, a: nat): Header
    requires Mapped(m, a)
  {
    var i := a - KHEAP_START;
    Header(Read32(m, i), m[i + 4], Read32(m, i + 8), Read32(m, i + 12), Read32(m, i + 16))
  }

  /** r is m except within the headers at the addresses in written. */
  ghost predicate WroteOnly(m: seq<byte>, r: seq<byte>, written: set<nat>) {
    |r| == |m| &&
    forall x :: 0 <= x < |m| && (forall a :: a in written ==> !(a <= KHEAP_START + x < a + H)) ==> r[x] == m[x]
  }

  function SetMagic(m: seq<byte>, a: nat, v: nat): (r: seq<byte>)
    requires Mapped(m, a) && v < LIMIT
    ensures |r| == |m| && WroteOnly(m, r, {a}) && ReadHeader(r, a) == ReadHeader(m, a).(magic := v)
  {
    Write32(m, a - KHEAP_START, v)
  }

  function SetIsHole(m: seq<byte>, a: nat, v: byte): (r: seq<byte>)
    requires Mapped(m, a)
    ensures |r| == |m| && WroteOnly(m, r, {a}) && ReadHeader(r, a) == ReadHeader(m, a).(isHole := v)
  {
    m[a - KHEAP_START + 4 := v]
  }

  function SetSize(m: seq<byte>, a: nat, v: nat): (r: seq<byte>)
    requires Mapped(m, a) && v < LIMIT
    ensures |r| == |m| && WroteOnly(m, r, {a}) && ReadHeader(r, a) == ReadHeader(m, a).(size := v)
  {
    Write32(m, a - KHEAP_START + 8, v)
  }

  function SetNext(m: seq<byte>, a: nat, v: nat): (r: seq<byte>)
    requires Mapped(m, a) && v < LIMIT
    ensures |r| == |m| && WroteOnly(m, r, {a}) && ReadHeader(r, a) == ReadHeader(m, a).(next := v)
  {
    Write32(m, a - KHEAP_START + 12, v)
  }

  function SetPrev(m: seq<byte>, a: nat, v: nat): (r: seq<byte>)
    requires Mapped(m, a) && v < LIMIT
    ensures |r| == |m| && WroteOnly(m, r, {a}) && ReadHeader(r, a) == ReadHeader(m, a).(prev := v)
  {
    Write32(m, a - KHEAP_START + 16, v)
  }

  /** A header away from everything written is unchanged. */
  lemma HeaderKept(m: seq<byte>, r: seq<byte>, written: set<nat>, b: nat)
    requires WroteOnly(m, r, written) && Mapped(m, b)
    requires forall a :: a in written ==> a + H <= b || b + H <= a
    ensures ReadHeader(r, b) == ReadHeader(m, b)
  {
    var i := b - KHEAP_START;
    assert forall x :: i <= x < i + H ==> r[x] == m[x];
  }

  lemma WroteBoth(m: seq<byte>, r: seq<byte>, q: seq<byte>, a: set<nat>, b: set<nat>)
    requires WroteOnly(m, r, a) && WroteOnly(r, q, b)
    ensures WroteOnly(m, q, a + b)
  {
    forall x | 0 <= x < |m| && (forall c :: c in a + b ==> !(c <= KHEAP_START + x < c + H)) ensures q[x] == m[x] {
      assert forall c :: c in a ==> c in a + b;
      assert forall c :: c in b ==> c in a + b;
    }
  }

  // ---------------------------------------------------------------- the list in memory

  /** What the header of chunk i must say. */
  function HeaderOf(hs: seq<Chunk>, i: nat): Header
    requires i < |hs|
  {
    Header(KHEAP_MAGIC, if hs[i].hole then 1 else 0, hs[i].size,
           if i + 1 < |hs| then hs[i + 1].addr else NULL,
           if i > 0 then hs[i - 1].addr else NULL)
  }

  ghost predicate HeaderOk(m: seq<byte>, hs: seq<Chunk>, i: nat)
    requires i < |hs|
  {
    Mapped(m, hs[i].addr) && ReadHeader(m, hs[i].addr) == HeaderOf(hs, i)
  }

  /** The memory holds the list hs, which tiles the heap up to end. */
  ghost predicate Represents(m: seq<byte>, hs: seq<Chunk>, end: nat) {
    && end <= KHEAP_START + |m| && end <= LIMIT
    && Tiles(hs, KHEAP_START, end)
    && (forall i :: 0 <= i < |hs| ==> HeaderOk(m, hs, i))
  }

  /** No byte of a live payload differs. */
  ghost predicate PayloadsKept(m: seq<byte>, r: seq<byte>, hs: seq<Chunk>) {
    && |m| <= |r|
    && forall c, x :: c in Live(hs) && c.Data() <= KHEAP_START + x < c.End() && 0 <= x < |m| ==> r[x] == m[x]
  }

  lemma ChunkFacts(m: seq<byte>, hs: seq<Chunk>, end: nat, i: nat)
    requires Represents(m, hs, end) && i < |hs|
    ensures Mapped(m, hs[i].addr) && ReadHeader(m, hs[i].addr) == HeaderOf(hs, i)
    ensures KHEAP_START <= hs[i].addr && hs[i].End() <= end <= LIMIT && end <= KHEAP_START + |m|
    ensures i + 1 < |hs| ==> hs[i + 1].addr == hs[i].End() && Mapped(m, hs[i + 1].addr)
    ensures i > 0 ==> hs[i - 1].End() == hs[i].addr && Mapped(m, hs[i - 1].addr)
  {
    assert hs[i] in hs;
    ChunksApart(hs, KHEAP_START, end, hs[i], hs[i]);
    assert HeaderOk(m, hs, i);
    assert i + 1 < |hs| ==> HeaderOk(m, hs, i + 1);
    assert i > 0 ==> HeaderOk(m, hs, i - 1);
  }

  /** The data of a chunk starts inside the heap, behind a header with the magic number. */
  lemma LiveHeader(m: seq<byte>, hs: seq<Chunk>, end: nat, i: nat)
    requires Represents(m, hs, end) && LastNotEmpty(hs) && i < |hs|
    ensures KHEAP_START < hs[i].Data() < end && Mapped(m, hs[i].addr)
    ensures ReadHeader(m, hs[i].addr).magic == KHEAP_MAGIC
  {
    DataInside(hs, KHEAP_START, end, i);
    ChunkFacts(m, hs, end, i);
  }

  /** A request that can be served is far from wrapping around. */
  lemma ServableSize(m: seq<byte>, hs: seq<Chunk>, end: nat, size: nat, align: bool)
    requires Represents(m, hs, end) && GrownEnd(hs, end, size, align) < LIMIT
    ensures size <= LIMIT - PAGE_SIZE
  {
    var j := Scan(hs, 0, size, align);
    if j < |hs| { ChunkFacts(m, hs, end, j); }
    hide Represents;
  }

  lemma FirstChunk(m: seq<byte>, hs: seq<Chunk>, end: nat)
    requires Represents(m, hs, end)
    ensures |hs| > 0 && hs[0].addr == KHEAP_START
  {
  }

  /** Chunks k and i do not overlap. */
  lemma Apart(hs: seq<Chunk>, end: nat, i: nat, k: nat)
    requires Tiles(hs, KHEAP_START, end) && i < |hs| && k < |hs| && i != k
    ensures hs[i].End() <= hs[k].addr || hs[k].End() <= hs[i].addr
  {
    if i < k { InOrder(hs, KHEAP_START, end, i, k); } else { InOrder(hs, KHEAP_START, end, k, i); }
  }

  ghost function LinkWrites(n: nat, next: nat): set<nat> {
    {n} + if next != NULL then {next} else {}
  }

  /** The headers a split writes: of the chunk, the new one, and the one behind. */
  ghost function SplitWrites(a: nat, n: nat, next: nat): set<nat> {
    LinkWrites(n, next) + {a}
  }

  /** The bytes r are what split_block leaves of m: chunk a is cut down to size, n is the new
      header with rest bytes behind it, next the header behind both. */
  ghost predicate SplitWritten(m: seq<byte>, r: seq<byte>, a: nat, n: nat, size: nat, rest: nat, next: nat) {
    && |r| == |m| && WroteOnly(m, r, SplitWrites(a, n, next))
    && Mapped(m, a) && Mapped(m, n) && (next != NULL ==> Mapped(m, next))
    && ReadHeader(r, n) == Header(KHEAP_MAGIC, 1, rest, next, a)
    && ReadHeader(r, a) == ReadHeader(m, a).(size := size, next := n)
    && (next != NULL ==> ReadHeader(r, next) == ReadHeader(m, next).(prev := n))
  }

  /** The headers of a split list, in terms of the old ones. */
  lemma SplitHeaderOf(hs: seq<Chunk>, i: nat, size: nat, k: nat)
    requires i < |hs| && hs[i].hole && hs[i].size > size + H && k < |hs| + 1
    ensures var t, n := Split(hs, i, size), hs[i].addr + H + size;
      && |t| == |hs| + 1
      && t[k].addr == (if k == i + 1 then n else hs[if k <= i then k else k - 1].addr)
      && HeaderOf(t, k) ==
        if k < i then HeaderOf(hs, k)
        else if k == i then HeaderOf(hs, i).(size := size, next := n)
        else if k == i + 1 then Header(KHEAP_MAGIC, 1, hs[i].size - size - H, HeaderOf(hs, i).next, hs[i].addr)
        else if k == i + 2 then HeaderOf(hs, i + 1).(prev := n)
        else HeaderOf(hs, k - 1)
  {
  }

  lemma SplitWritesAway(hs: seq<Chunk>, i: nat, n: nat, next: nat, end: nat, k: nat)
    requires Tiles(hs, KHEAP_START, end) && i < |hs| && next == HeaderOf(hs, i).next
    requires hs[i].addr <= n && n + H <= hs[i].End()
    requires k < |hs| && k != i && k != i + 1
    ensures forall a :: a in SplitWrites(hs[i].addr, n, next) ==> a + H <= hs[k].addr || hs[k].addr + H <= a
  {
    Apart(hs, end, i, k);
    if i + 1 < |hs| { Apart(hs, end, i + 1, k); }
  }

  /** A chunk that no written header touches keeps its own header. */
  lemma UntouchedHeader(m: seq<byte>, r: seq<byte>, hs: seq<Chunk>, written: set<nat>, end: nat, k: nat)
    requires Represents(m, hs, end) && k < |hs| && WroteOnly(m, r, written)
    requires forall a :: a in written ==> a + H <= hs[k].addr || hs[k].addr + H <= a
    ensures Mapped(r, hs[k].addr) && ReadHeader(r, hs[k].addr) == HeaderOf(hs, k)
  {
    ChunkFacts(m, hs, end, k);
    HeaderKept(m, r, written, hs[k].addr);
  }

  lemma SplitHeaderAway(m: seq<byte>, r: seq<byte>, hs: seq<Chunk>, i: nat, size: nat, end: nat, n: nat, next: nat, k: nat)
    requires Represents(m, hs, end) && i < |hs| && hs[i].size > size + H && k < |hs| && k != i && k != i + 1
    requires n == hs[i].addr + H + size && next == HeaderOf(hs, i).next
    requires SplitWritten(m, r, hs[i].addr, n, size, hs[i].size - size - H, next)
    ensures Mapped(r, hs[k].addr) && ReadHeader(r, hs[k].addr) == HeaderOf(hs, k)
  {
    hide ReadHeader, WroteOnly, SplitWrites;
    SplitWritesAway(hs, i, n, next, end, k);
    UntouchedHeader(m, r, hs, SplitWrites(hs[i].addr, n, next), end, k);
  }

  lemma SplitHeaderNear(m: seq<byte>, r: seq<byte>, hs: seq<Chunk>, i: nat, size: nat, end: nat, n: nat, next: nat)
    requires Represents(m, hs, end) && i < |hs| && hs[i].hole && hs[i].size > size + H
    requires n == hs[i].addr + H + size && next == HeaderOf(hs, i).next
    requires SplitWritten(m, r, hs[i].addr, n, size, hs[i].size - size - H, next)
    ensures Mapped(r, hs[i].addr) && ReadHeader(r, hs[i].addr) == HeaderOf(hs, i).(size := size, next := n)
    ensures Mapped(r, n) && ReadHeader(r, n) == Header(KHEAP_MAGIC, 1, hs[i].size - size - H, next, hs[i].addr)
    ensures i + 1 < |hs| ==>
      Mapped(r, hs[i + 1].addr) && ReadHeader(r, hs[i + 1].addr) == HeaderOf(hs, i + 1).(prev := n)
  {
    hide ReadHeader, Represents, WroteOnly, SplitWrites;
    ChunkFacts(m, hs, end, i);
    if i + 1 < |hs| { ChunkFacts(m, hs, end, i + 1); }
  }

  lemma SplitHeader(m: seq<byte>, r: seq<byte>, hs: seq<Chunk>, i: nat, size: nat, end: nat, n: nat, next: nat, k: nat)
    requires Represents(m, hs, end) && i < |hs| && hs[i].hole && hs[i].size > size + H && k < |hs| + 1
    requires n == hs[i].addr + H + size && next == HeaderOf(hs, i).next
    requires SplitWritten(m, r, hs[i].addr, n, size, hs[i].size - size - H, next)
    ensures k < |Split(hs, i, size)| && HeaderOk(r, Split(hs, i, size), k)
  {
    hide ReadHeader, Represents, WroteOnly, Split, SplitWrites, SplitWritten;
    SplitHeaderOf(hs, i, size, k);
    ChunkFacts(m, hs, end, i);
    if k < i || k > i + 2 {
      SplitHeaderAway(m, r, hs, i, size, end, n, next, if k < i then k else k - 1);
    } else {
      SplitHeaderNear(m, r, hs, i, size, end, n, next);
    }
  }

  /** Writing inside one hole and in headers of the list leaves live payloads alone. */
  lemma WritesMissPayloads(m: seq<byte>, r: seq<byte>, hs: seq<Chunk>, written: set<nat>, end: nat)
    requires Tiles(hs, KHEAP_START, end) && WroteOnly(m, r, written)
    requires forall a :: a in written ==> exists c :: c in hs && c.addr <= a && (a == c.addr || (c.hole && a + H <= c.End()))
    ensures PayloadsKept(m, r, hs)
  {
    forall c, x | c in Live(hs) && c.Data() <= KHEAP_START + x < c.End() && 0 <= x < |m| ensures r[x] == m[x] {
      forall a | a in written ensures !(a <= KHEAP_START + x < a + H) {
        var d :| d in hs && d.addr <= a && (a == d.addr || (d.hole && a + H <= d.End()));
        ChunksApart(hs, KHEAP_START, end, c, d);
      }
    }
  }

  lemma SplitPayloads(m: seq<byte>, r: seq<byte>, hs: seq<Chunk>, i: nat, size: nat, end: nat, n: nat, next: nat)
    requires Tiles(hs, KHEAP_START, end) && i < |hs| && hs[i].hole && hs[i].size > size + H
    requires n == hs[i].addr + H + size && next == HeaderOf(hs, i).next
    requires WroteOnly(m, r, SplitWrites(hs[i].addr, n, next))
    ensures PayloadsKept(m, r, hs)
  {
    forall a | a in SplitWrites(hs[i].addr, n, next)
      ensures exists c :: c in hs && c.addr <= a && (a == c.addr || (c.hole && a + H <= c.End()))
    {
      assert hs[i] in hs;
      assert i + 1 < |hs| ==> hs[i + 1] in hs;
    }
    WritesMissPayloads(m, r, hs, SplitWrites(hs[i].addr, n, next), end);
  }

  lemma SplitRepresents(m: seq<byte>, r: seq<byte>, hs: seq<Chunk>, i: nat, size: nat, end: nat,
                        a: nat, n: nat, rest: nat, next: nat)
    requires Represents(m, hs, end) && i < |hs| && hs[i].hole && hs[i].size > size + H
    requires a == hs[i].addr && n == a + H + size && rest == hs[i].size - size - H && next == HeaderOf(hs, i).next
    requires SplitWritten(m, r, a, n, size, rest, next)
    ensures |r| == |m| && Represents(r, Split(hs, i, size), end) && PayloadsKept(m, r, hs)
  {
    hide HeaderOk, SplitWrites, WroteOnly, ReadHeader, HeaderOf, PayloadsKept, Mapped;
    var t := Split(hs, i, size);
    SplitTiles(hs, i, size, KHEAP_START, end);
    forall k | 0 <= k < |t| ensures HeaderOk(r, t, k) {
      SplitHeader(m, r, hs, i, size, end, n, next, k);
    }
    SplitPayloads(m, r, hs, i, size, end, n, next);
  }

  // ---------------------------------------------------------------- joining, marking, extending

  /** The bytes r are what one merge of kfree leaves of m: chunk a grows to size and links
      to next, the header behind the swallowed one. */
  ghost predicate JoinWritten(m: seq<byte>, r: seq<byte>, a: nat, size: nat, next: nat) {
    && |r| == |m| && WroteOnly(m, r, LinkWrites(a, next))
    && Mapped(m, a) && (next != NULL ==> Mapped(m, next))
    && ReadHeader(r, a) == ReadHeader(m, a).(size := size, next := next)
    && (next != NULL ==> ReadHeader(r, next) == ReadHeader(m, next).(prev := a))
  }

  lemma JoinHeaderOf(hs: seq<Chunk>, i: nat, k: nat)
    requires i + 1 < |hs| && k < |hs| - 1
    ensures var t := Join(hs, i);
      && |t| == |hs| - 1
      && t[k].addr == hs[if k <= i then k else k + 1].addr
      && HeaderOf(t, k) ==
        if k < i then HeaderOf(hs, k)
        else if k == i then
          HeaderOf(hs, i).(size := hs[i].size + hs[i + 1].size + H, next := HeaderOf(hs, i + 1).next)
        else if k == i + 1 then HeaderOf(hs, i + 2).(prev := hs[i].addr)
        else HeaderOf(hs, k + 1)
  {
  }

  lemma JoinWritesAway(hs: seq<Chunk>, i: nat, next: nat, end: nat, k: nat)
    requires Tiles(hs, KHEAP_START, end) && i + 1 < |hs| && next == HeaderOf(hs, i + 1).next
    requires k < |hs| && k != i && k != i + 2
    ensures forall a :: a in LinkWrites(hs[i].addr, next) ==> a + H <= hs[k].addr || hs[k].addr + H <= a
  {
    Apart(hs, end, i, k);
    if i + 2 < |hs| { Apart(hs, end, i + 2, k); }
  }

  lemma JoinHeader(m: seq<byte>, r: seq<byte>, hs: seq<Chunk>, i: nat, end: nat, a: nat, size: nat, next: nat, k: nat)
    requires Represents(m, hs, end) && i + 1 < |hs| && k < |hs| - 1
    requires a == hs[i].addr && size == hs[i].size + hs[i + 1].size + H && next == HeaderOf(hs, i + 1).next
    requires JoinWritten(m, r, a, size, next)
    ensures k < |Join(hs, i)| && HeaderOk(r, Join(hs, i), k)
  {
    JoinHeaderOf(hs, i, k);
    ChunkFacts(m, hs, end, i);
    ChunkFacts(m, hs, end, i + 1);
    if i + 2 < |hs| { ChunkFacts(m, hs, end, i + 2); }
    if k < i || k > i + 1 {
      var k' := if k < i then k else k + 1;
      JoinWritesAway(hs, i, next, end, k');
      UntouchedHeader(m, r, hs, LinkWrites(a, next), end, k');
    }
    hide ReadHeader, Represents, WroteOnly, Join, LinkWrites;
  }

  lemma JoinPayloads(m: seq<byte>, r: seq<byte>, hs: seq<Chunk>, i: nat, end: nat, next: nat)
    requires Tiles(hs, KHEAP_START, end) && i + 1 < |hs| && next == HeaderOf(hs, i + 1).next
    requires WroteOnly(m, r, LinkWrites(hs[i].addr, next))
    ensures PayloadsKept(m, r, hs)
  {
    forall a | a in LinkWrites(hs[i].addr, next)
      ensures exists c :: c in hs && c.addr <= a && (a == c.addr || (c.hole && a + H <= c.End()))
    {
      assert hs[i] in hs;
      assert i + 2 < |hs| ==> hs[i + 2] in hs;
    }
    WritesMissPayloads(m, r, hs, LinkWrites(hs[i].addr, next), end);
  }

  lemma JoinRepresents(m: seq<byte>, r: seq<byte>, hs: seq<Chunk>, i: nat, end: nat, a: nat, size: nat, next: nat)
    requires Represents(m, hs, end) && i + 1 < |hs|
    requires a == hs[i].addr && size == hs[i].size + hs[i + 1].size + H && next == HeaderOf(hs, i + 1).next
    requires JoinWritten(m, r, a, size, next)
    ensures |r| == |m| && Represents(r, Join(hs, i), end) && PayloadsKept(m, r, hs)
  {
    var t := Join(hs, i);
    JoinTiles(hs, i, KHEAP_START, end);
    forall k | 0 <= k < |t| ensures HeaderOk(r, t, k) {
      JoinHeader(m, r, hs, i, end, a, size, next, k);
    }
    JoinPayloads(m, r, hs, i, end, next);
    hide HeaderOk, Join, LinkWrites, WroteOnly, ReadHeader, HeaderOf, PayloadsKept;
  }

  /** The stores of one merge of kfree. */
  function JoinBytes(m: seq<byte>, a: nat, size: nat, next: nat): seq<byte>
    requires Mapped(m, a) && size < LIMIT && KHEAP_START + |m| <= LIMIT
    requires next != NULL ==> Mapped(m, next) && a + H <= next
  {
    var m1 := SetSize(m, a, size);
    var m2 := SetNext(m1, a, next);
    if next != NULL then SetPrev(m2, next, a) else m2
  }

  lemma JoinBytesAt(m: seq<byte>, a: nat, size: nat, next: nat)
    requires Mapped(m, a) && size < LIMIT && KHEAP_START + |m| <= LIMIT
    requires next != NULL ==> Mapped(m, next) && a + H <= next
    ensures JoinWritten(m, JoinBytes(m, a, size, next), a, size, next)
  {
    var m1 := SetSize(m, a, size);
    var m2 := SetNext(m1, a, next);
    var r := JoinBytes(m, a, size, next);
    assert next != NULL ==> r == SetPrev(m2, next, a);
    hide SetPrev, SetNext, SetSize, ReadHeader, WroteOnly, JoinBytes;
    WroteBoth(m, m1, m2, {a}, {a});
    assert {a} + {a} == {a};
    if next != NULL {
      HeaderKept(m, m2, {a}, next);
      HeaderKept(m2, r, {next}, a);
      WroteBoth(m, m2, r, {a}, {next});
    }
  }

  lemma RepresentsTiles(m: seq<byte>, hs: seq<Chunk>, end: nat)
    requires Represents(m, hs, end)
    ensures Tiles(hs, KHEAP_START, end)
  {
  }

  lemma WroteLength(m: seq<byte>, r: seq<byte>, written: set<nat>)
    requires WroteOnly(m, r, written)
    ensures |r| == |m|
  {
  }

  lemma MarkHeader(m: seq<byte>, r: seq<byte>, hs: seq<Chunk>, i: nat, hole: bool, end: nat, k: nat)
    requires Represents(m, hs, end) && i < |hs| && Mapped(r, hs[i].addr)
    requires WroteOnly(m, r, {hs[i].addr})
    requires ReadHeader(r, hs[i].addr) == HeaderOf(hs, i).(isHole := if hole then 1 else 0)
    requires k < |hs|
    ensures HeaderOk(r, hs[i := hs[i].(hole := hole)], k)
  {
    hide WroteOnly, ReadHeader, Represents;
    ChunkFacts(m, hs, end, i);
    if k != i {
      RepresentsTiles(m, hs, end);
      Apart(hs, end, i, k);
      UntouchedHeader(m, r, hs, {hs[i].addr}, end, k);
    }
  }

  lemma MarkRepresents(m: seq<byte>, r: seq<byte>, hs: seq<Chunk>, i: nat, hole: bool, end: nat)
    requires Represents(m, hs, end) && i < |hs| && Mapped(r, hs[i].addr)
    requires WroteOnly(m, r, {hs[i].addr})
    requires ReadHeader(r, hs[i].addr) == HeaderOf(hs, i).(isHole := if hole then 1 else 0)
    ensures Represents(r, hs[i := hs[i].(hole := hole)], end) && PayloadsKept(m, r, hs)
  {
    hide HeaderOk, PayloadsKept, WroteOnly, ReadHeader;
    var t := hs[i := hs[i].(hole := hole)];
    assert hs[i] in hs;
    WritesMissPayloads(m, r, hs, {hs[i].addr}, end);
    forall k | 0 <= k < |t| ensures HeaderOk(r, t, k) {
      MarkHeader(m, r, hs, i, hole, end, k);
    }
    WroteLength(m, r, {hs[i].addr});
  }

  /** Mapping more memory behind the heap changes nothing in it. */
  lemma GrowRepresents(m: seq<byte>, r: seq<byte>, hs: seq<Chunk>, end: nat)
    requires Represents(m, hs, end) && m <= r
    ensures Represents(r, hs, end) && PayloadsKept(m, r, hs)
  {
    forall k | 0 <= k < |hs| ensures HeaderOk(r, hs, k) {
      assert HeaderOk(m, hs, k);
      var i := hs[k].addr - KHEAP_START;
      assert forall x :: i <= x < i + H ==> r[x] == m[x];
    }
    hide HeaderOk;
  }

  /** Writing the last header, and behind the heap, leaves live payloads alone. */
  lemma ExtendPayloads(m: seq<byte>, r: seq<byte>, hs: seq<Chunk>, end: nat, written: set<nat>)
    requires Represents(m, hs, end) && WroteOnly(m, r, written)
    requires written <= {hs[|hs| - 1].addr, end}
    ensures PayloadsKept(m, r, hs)
  {
    var last := hs[|hs| - 1];
    forall c, x | c in Live(hs) && c.Data() <= KHEAP_START + x < c.End() && 0 <= x < |m| ensures r[x] == m[x] {
      ChunksApart(hs, KHEAP_START, end, c, last);
    }
  }

  lemma ExtendRepresents(m: seq<byte>, r: seq<byte>, hs: seq<Chunk>, end: nat, n: nat, last: nat, written: set<nat>)
    requires Represents(m, hs, end) && |r| == |m| && n >= H && last == hs[|hs| - 1].addr
    requires end + n <= KHEAP_START + |m| && end + n <= LIMIT
    requires WroteOnly(m, r, written) && written == (if hs[|hs| - 1].hole then {last} else {last, end})
    requires Mapped(r, last) &&
      if hs[|hs| - 1].hole then
        ReadHeader(r, last) == HeaderOf(hs, |hs| - 1).(size := hs[|hs| - 1].size + n)
      else
        && Mapped(r, end)
        && ReadHeader(r, last) == HeaderOf(hs, |hs| - 1).(next := end)
        && ReadHeader(r, end) == Header(KHEAP_MAGIC, 1, n - H, NULL, last)
    ensures Represents(r, Extend(hs, end, n), end + n) && PayloadsKept(m, r, hs)
  {
    var t, l := Extend(hs, end, n), |hs| - 1;
    forall k | 0 <= k < |t| ensures HeaderOk(r, t, k) {
      if k < l {
        Apart(hs, end, k, l);
        assert hs[k] in hs;
        ChunksApart(hs, KHEAP_START, end, hs[k], hs[k]);
        UntouchedHeader(m, r, hs, written, end, k);
      }
    }
    ExtendPayloads(m, r, hs, end, written);
    hide HeaderOk, WroteOnly, PayloadsKept;
  }

  // ---------------------------------------------------------------- the heap

  /** A fresh hole header at a; the fields' old contents do not matter. */
  function InitHole(m: seq<byte>, a: nat, size: nat, next: nat, prev: nat): (r: seq<byte>)
    requires Mapped(m, a) && size < LIMIT && next < LIMIT && prev < LIMIT
    ensures |r| == |m| && WroteOnly(m, r, {a}) && ReadHeader(r, a) == Header(KHEAP_MAGIC, 1, size, next, prev)
  {
    var m1 := SetMagic(m, a, KHEAP_MAGIC);
    var m2 := SetIsHole(m1, a, 1);
    var m3 := SetSize(m2, a, size);
    var m4 := SetNext(m3, a, next);
    SetPrev(m4, a, prev)
  }

  /** Set up the new hole header at n and link the chunk behind it back to it. */
  function LinkHole(m: seq<byte>, n: nat, size: nat, next: nat, prev: nat): (r: seq<byte>)
    requires Mapped(m, n) && size < LIMIT && prev < LIMIT && KHEAP_START + |m| <= LIMIT
    requires next != NULL ==> Mapped(m, next) && n + H <= next
    ensures |r| == |m| && WroteOnly(m, r, LinkWrites(n, next))
    ensures ReadHeader(r, n) == Header(KHEAP_MAGIC, 1, size, next, prev)
    ensures next != NULL ==> ReadHeader(r, next) == ReadHeader(m, next).(prev := n)
  {
    var m1 := InitHole(m, n, size, next, prev);
    if next == NULL then m1
    else
      var m2 := SetPrev(m1, next, n);
      HeaderKept(m, m1, {n}, next);
      HeaderKept(m1, m2, {next}, n);
      WroteBoth(m, m1, m2, {n}, {next});
      m2
  }

  /** The stores of split_block, when there is room for another header. */
  function SplitBytes(m: seq<byte>, a: nat, n: nat, size: nat, rest: nat, next: nat): seq<byte>
    requires Mapped(m, a) && Mapped(m, n) && size < LIMIT && rest < LIMIT && KHEAP_START + |m| <= LIMIT
    requires next != NULL ==> Mapped(m, next) && n + H <= next
  {
    var m1 := LinkHole(m, n, rest, next, a);
    var m2 := SetNext(m1, a, n);
    SetSize(m2, a, size)
  }

  lemma CutBlock(m: seq<byte>, a: nat, n: nat, size: nat)
    requires Mapped(m, a) && n < LIMIT && size < LIMIT
    ensures var r := SetSize(SetNext(m, a, n), a, size);
      WroteOnly(m, r, {a}) && ReadHeader(r, a) == ReadHeader(m, a).(size := size, next := n)
  {
    hide SetSize, SetNext, ReadHeader, WroteOnly;
    WroteBoth(m, SetNext(m, a, n), SetSize(SetNext(m, a, n), a, size), {a}, {a});
    assert {a} + {a} == {a};
  }

  lemma SplitBytesAt(m: seq<byte>, a: nat, n: nat, size: nat, rest: nat, next: nat)
    requires KHEAP_START + |m| <= LIMIT && Mapped(m, a) && Mapped(m, n) && n == a + H + size
    requires next != NULL ==> Mapped(m, next) && n + H <= next
    requires rest < LIMIT && size < LIMIT
    ensures SplitWritten(m, SplitBytes(m, a, n, size, rest, next), a, n, size, rest, next)
  {
    hide InitHole, SetPrev, SetNext, SetSize, ReadHeader, WroteOnly, LinkHole;
    var m2 := LinkHole(m, n, rest, next, a);
    var r := SetSize(SetNext(m2, a, n), a, size);
    assert r == SplitBytes(m, a, n, size, rest, next);
    HeaderKept(m, m2, LinkWrites(n, next), a);
    CutBlock(m2, a, n, size);
    HeaderKept(m2, r, {a}, n);
    if next != NULL {
      HeaderKept(m2, r, {a}, next);
    }
    WroteBoth(m, m2, r, LinkWrites(n, next), {a});
  }

  /** The stores of expand_heap for a new last hole at n. */
  function NewLastBytes(m: seq<byte>, last: nat, n: nat, size: nat): seq<byte>
    requires Mapped(m, last) && Mapped(m, n) && size < LIMIT && KHEAP_START + |m| <= LIMIT
  {
    var m1 := InitHole(m, n, size, NULL, last);
    SetNext(m1, last, n)
  }

  lemma NewLastBytesAt(m: seq<byte>, last: nat, n: nat, size: nat)
    requires Mapped(m, last) && Mapped(m, n) && last + H <= n && size < LIMIT && KHEAP_START + |m| <= LIMIT
    ensures var r := NewLastBytes(m, last, n, size);
      && |r| == |m| && WroteOnly(m, r, {last, n})
      && ReadHeader(r, last) == ReadHeader(m, last).(next := n)
      && ReadHeader(r, n) == Header(KHEAP_MAGIC, 1, size, NULL, last)
  {
    var m1 := InitHole(m, n, size, NULL, last);
    var r := SetNext(m1, last, n);
    assert r == NewLastBytes(m, last, n, size);
    hide InitHole, SetNext, ReadHeader, WroteOnly, NewLastBytes;
    HeaderKept(m, m1, {n}, last);
    HeaderKept(m1, r, {last}, n);
    WroteBoth(m, m1, r, {n}, {last});
    assert {n} + {last} == {last, n};
  }

  function LastSize(m: seq<byte>, last: nat, n: nat): nat
    requires Mapped(m, last) && H <= n
  {
    if ReadHeader(m, last).isHole != 0 then ReadHeader(m, last).size + n else n - H
  }

  /** The stores of expand_heap behind its mapping loop, for n more bytes at end. */
  function LastBytes(m: seq<byte>, last: nat, end: nat, n: nat): seq<byte>
    requires Mapped(m, last) && Mapped(m, end) && H <= n < LIMIT && KHEAP_START + |m| <= LIMIT
    requires ReadHeader(m, last).size + n < LIMIT
  {
    var size := LastSize(m, last, n);
    if ReadHeader(m, last).isHole != 0 then SetSize(m, last, size) else NewLastBytes(m, last, end, size)
  }

  lemma LongerHole(m: seq<byte>, hs: seq<Chunk>, end: nat, n: nat, last: nat, size: nat)
    requires Represents(m, hs, end) && end + n == KHEAP_START + |m| <= LIMIT && n >= H && last == hs[|hs| - 1].addr
    requires hs[|hs| - 1].hole && size == hs[|hs| - 1].size + n
    ensures Mapped(m, last) && size < LIMIT
    ensures var r := SetSize(m, last, size);
      |r| == |m| && Represents(r, Extend(hs, end, n), end + n) && PayloadsKept(m, r, hs)
  {
    ChunkFacts(m, hs, end, |hs| - 1);
    hide Represents, WroteOnly, PayloadsKept, SetSize, Extend, Read32, Tiles;
    ExtendRepresents(m, SetSize(m, last, size), hs, end, n, last, {last});
  }

  lemma NewHole(m: seq<byte>, hs: seq<Chunk>, end: nat, n: nat, last: nat, size: nat)
    requires Represents(m, hs, end) && end + n == KHEAP_START + |m| <= LIMIT && last == hs[|hs| - 1].addr
    requires !hs[|hs| - 1].hole && n == H + size
    ensures Mapped(m, last) && Mapped(m, end) && size < LIMIT
    ensures var r := NewLastBytes(m, last, end, size);
      |r| == |m| && Represents(r, Extend(hs, end, n), end + n) && PayloadsKept(m, r, hs)
  {
    ChunkFacts(m, hs, end, |hs| - 1);
    hide Represents, WroteOnly, PayloadsKept, NewLastBytes, Extend, Read32, Tiles;
    NewLastBytesAt(m, last, end, size);
    ExtendRepresents(m, NewLastBytes(m, last, end, size), hs, end, n, last, {last, end});
  }

  lemma LastBytesRepresent(m: seq<byte>, hs: seq<Chunk>, end: nat, n: nat, last: nat)
    requires Represents(m, hs, end) && end + n == KHEAP_START + |m| <= LIMIT && n >= H && last == hs[|hs| - 1].addr
    ensures Mapped(m, last) && Mapped(m, end) && ReadHeader(m, last).size + n < LIMIT
    ensures var r := LastBytes(m, last, end, n);
      |r| == |m| && Represents(r, Extend(hs, end, n), end + n) && PayloadsKept(m, r, hs)
  {
    ChunkFacts(m, hs, end, |hs| - 1);
    var size := LastSize(m, last, n);
    if hs[|hs| - 1].hole {
      LongerHole(m, hs, end, n, last, size);
    } else {
      NewHole(m, hs, end, n, last, size);
    }
    hide Represents, WroteOnly, PayloadsKept, NewLastBytes, SetSize, Extend, Read32, Tiles;
  }

  lemma PayloadsSame(m: seq<byte>, hs: seq<Chunk>)
    ensures PayloadsKept(m, m, hs)
  {
  }

  lemma PayloadsChain(m: seq<byte>, q: seq<byte>, r: seq<byte>, hs: seq<Chunk>, hs': seq<Chunk>)
    requires PayloadsKept(m, q, hs) && PayloadsKept(q, r, hs') && Live(hs) <= Live(hs')
    ensures PayloadsKept(m, r, hs)
  {
    forall c, x | c in Live(hs) && c.Data() <= KHEAP_START + x < c.End() && 0 <= x < |m| ensures r[x] == m[x] {
      assert c in Live(hs');
    }
  }

  lemma SplitLive(hs: seq<Chunk>, i: nat, size: nat)
    requires i < |hs| && hs[i].hole
    ensures Live(hs) <= Live(Split(hs, i, size))
  {
    var t := Split(hs, i, size);
    forall c | c in Live(hs) ensures c in Live(t) {
      var k :| 0 <= k < |hs| && hs[k] == c;
      if hs[i].size > size + H {
        assert t[if k < i then k else k + 1] == c;
      }
    }
  }

  /** The stages of carving an allocation out of hole j, on the list. */
  lemma CutFacts(hs: seq<Chunk>, j: nat, size: nat, align: bool)
    requires j < |hs| && Suits(hs[j], size, align) && Clears(hs[j], align)
    ensures hs[j].hole
    ensures var p, cut, k := Padding(hs[j], align), CutFront(hs, j, align), Slot(hs, j, align);
      && (p > H ==> cut == Split(hs, j, p - H) && k == j + 1 < |cut| && cut[j].hole && cut[j].addr == hs[j].addr)
      && (p <= H ==> cut == hs && k == j)
      && k < |cut| && cut[k].hole && cut[k].addr == Granted(hs[j], size, align).addr
      && k < |Split(cut, k, size)| && Split(cut, k, size)[k].hole
      && Split(cut, k, size)[k].addr == cut[k].addr
      && Place(hs, j, size, align) == Split(cut, k, size)[k := Split(cut, k, size)[k].(hole := false)]
      && Live(hs) <= Live(cut) <= Live(Split(cut, k, size))
  {
    var p, cut, k := Padding(hs[j], align), CutFront(hs, j, align), Slot(hs, j, align);
    if p > H {
      SplitLive(hs, j, p - H);
    }
    assert cut[k].hole;
    SplitLive(cut, k, size);
  }

  /** The list hs' and the pointer that serving a request from the first fit in hs yields. */
  ghost predicate Served(hs: seq<Chunk>, size: nat, align: bool, hs': seq<Chunk>, ptr: nat)
  {
    var j := Scan(hs, 0, size, align);
    j < |hs| && Clears(hs[j], align) && hs' == Place(hs, j, size, align) && ptr == Granted(hs[j], size, align).Data()
  }

  lemma GrowthBounds(size: nat, align: bool)
    ensures var n := size + (if align then PAGE_SIZE else 0) + H;
      Growth(size, align) == RoundUp(n) && n <= Growth(size, align) < n + PAGE_SIZE
  {
  }

  /** One hole over the initial megabyte. */
  lemma FirstHole(m: seq<byte>)
    requires |m| == KHEAP_INITIAL_SIZE
    requires ReadHeader(m, KHEAP_START) == Header(KHEAP_MAGIC, 1, KHEAP_INITIAL_SIZE - H, NULL, NULL)
    ensures var hs := [Chunk(KHEAP_START, KHEAP_INITIAL_SIZE - H, true)];
      Represents(m, hs, KHEAP_START + KHEAP_INITIAL_SIZE) && Inv(hs, KHEAP_START, KHEAP_START + KHEAP_INITIAL_SIZE)
  {
    hide ReadHeader;
    var hs := [Chunk(KHEAP_START, KHEAP_INITIAL_SIZE - H, true)];
    assert HeaderOk(m, hs, 0);
  }

  lemma JoinLive(hs: seq<Chunk>, i: nat)
    requires i + 1 < |hs| && hs[i].hole && hs[i + 1].hole
    ensures Live(hs) <= Live(Join(hs, i))
  {
    var t := Join(hs, i);
    forall c | c in Live(hs) ensures c in Live(t) {
      var k :| 0 <= k < |hs| && hs[k] == c;
      assert t[if k < i then k else k - 1] == c;
    }
  }

  lemma PayloadsOfFewer(m: seq<byte>, r: seq<byte>, hs: seq<Chunk>, hs': seq<Chunk>)
    requires PayloadsKept(m, r, hs) && Live(hs') <= Live(hs)
    ensures PayloadsKept(m, r, hs')
  {
  }

  lemma MarkedLive(hs: seq<Chunk>, i: nat)
    requires i < |hs|
    ensures Live(hs) - {hs[i]} <= Live(hs[i := hs[i].(hole := true)]) <= Live(hs)
  {
    var t := hs[i := hs[i].(hole := true)];
    forall c | c in Live(hs) && c != hs[i] ensures c in Live(t) {
      var k :| 0 <= k < |hs| && hs[k] == c;
      assert t[k] == c;
    }
    forall c | c in Live(t) ensures c in Live(hs) {
      var k :| 0 <= k < |t| && t[k] == c;
      assert hs[k] == c;
    }
  }

  class Heap {
    const backing: Backing
    /** The mapped bytes from KHEAP_START on. */
    var mem: seq<byte>
    var heapEnd: nat
    ghost var chunks: seq<Chunk>

    ghost predicate Valid()
      reads this, backing, backing.pager, backing.pager.pmm, backing.pager.pmm.pages, backing.pager.pmm.freeLists
    {
      && heapEnd == KHEAP_START + |mem| && heapEnd % PAGE_SIZE == 0 && OnPages()
      && Represents(mem, chunks, heapEnd) && Inv(chunks, KHEAP_START, heapEnd) && LastNotEmpty(chunks)
    }

    /** Each page of the heap has a frame of its own behind it. */
    ghost predicate OnPages()
      reads this, backing, backing.pager, backing.pager.pmm, backing.pager.pmm.pages, backing.pager.pmm.freeLists
    {
      backing.Valid() && |mem| == PAGE_SIZE * |backing.frames|
    }

    /** The use of pages once a request is served; None if it never is. */
    ghost function Serving(size: nat, align: bool): Option<Use>
      reads this, backing, backing.pager, backing.pager.pmm
    {
      if Scan(chunks, 0, size, align) < |chunks| then Some(backing.pager.Used())
      else backing.Adding(Growth(size, align) / 4096)
    }

    /** A request that the heap can serve, after growing if need be. */
    ghost predicate CanServe(size: nat, align: bool)
      reads this, backing, backing.pager, backing.pager.pmm
    {
      var j := Scan(chunks, 0, size, align);
      && |chunks| > 0 && size + H < LIMIT && GrownEnd(chunks, heapEnd, size, align) < LIMIT
      && Serving(size, align).Some?
      && (if j < |chunks| then Clears(chunks[j], align) else !Stuck(chunks, align))
    }

    /** kheap_init: a megabyte of fresh pages, whatever they hold, becomes one hole. */
    constructor (p: Vmm.Pager)
      requires p.Valid() && p.switched && |p.mem| <= FIRST
      requires HeapLoop(p.Used(), p.Own(), FIRST, 256).Some?
      modifies p, p.pmm`state, p.pmm.pages, p.pmm.freeLists
      ensures Valid() && heapEnd == KHEAP_START + KHEAP_INITIAL_SIZE && backing.pager == p && |backing.frames| == 256
      ensures chunks == [Chunk(KHEAP_START, KHEAP_INITIAL_SIZE - H, true)]
      ensures Some(p.Used()) == old(HeapLoop(p.Used(), p.Own(), FIRST, 256)) && p.Own() == old(p.Own())
    {
      hide Represents, Inv, Vmm.Pager.Valid, Backed, Read32, HeapLoop;
      backing := new Backing(p);
      mem, heapEnd, chunks := [], KHEAP_START, [];
      new;
      MapPages(KHEAP_START, KHEAP_INITIAL_SIZE);
      FormatInitial();
    }

    /** The rest of kheap_init, after the mapping loop. */
    method FormatInitial()
      requires OnPages() && |mem| == KHEAP_INITIAL_SIZE
      modifies this
      ensures Valid() && heapEnd == KHEAP_START + KHEAP_INITIAL_SIZE
      ensures chunks == [Chunk(KHEAP_START, KHEAP_INITIAL_SIZE - H, true)]
    {
      hide ReadHeader, WroteOnly, InitHole, Represents, Inv, Backing.Valid;
      chunks := [Chunk(KHEAP_START, KHEAP_INITIAL_SIZE - H, true)];
      mem := InitHole(mem, KHEAP_START, KHEAP_INITIAL_SIZE - H, NULL, NULL);
      heapEnd := KHEAP_START + KHEAP_INITIAL_SIZE;
      FirstHole(mem);
    }

    /** The mapping loop of kheap_init and expand_heap: size more bytes behind the heap. */
    method MapPages(start: nat, size: nat)
      requires OnPages() && start == KHEAP_START + |mem| && size % 4096 == 0 && start + size <= LIMIT
      requires backing.Adding(size / 4096).Some?
      modifies this`mem, backing, backing.pager, backing.pager.pmm`state, backing.pager.pmm.pages, backing.pager.pmm.freeLists
      ensures OnPages() && |mem| == |old(mem)| + size && old(mem) <= mem
      ensures Some(backing.pager.Used()) == old(backing.Adding(size / 4096)) && backing.pager.Own() == old(backing.pager.Own())
    {
      hide Backing.Valid, HeapOne;
      ghost var u, own, v, k := backing.pager.Used(), backing.pager.Own(), FIRST + |backing.frames|, 0;
      var i := 0;
      while i < size
        invariant i == 4096 * k && k <= size / 4096
        invariant OnPages() && |mem| == |old(mem)| + i && old(mem) <= mem
        invariant HeapLoop(u, own, v, k) == Some(backing.pager.Used()) && backing.pager.Own() == own
      {
        HeapLoopPrefix(u, own, v, k + 1, size / 4096);
        LoopStep(u, own, v, k + 1, FIRST + |backing.frames|);
        MapPage(start + i);
        i, k := i + PAGE_SIZE, k + 1;
      }
    }

    /** One round of it. What the new page holds is not known. */
    method MapPage(virtual: nat)
      requires OnPages() && virtual == KHEAP_START + |mem| && virtual + 4096 <= LIMIT
      requires HeapOne(backing.pager.Used(), backing.pager.Own(), FIRST + |backing.frames|).Some?
      modifies this`mem, backing, backing.pager, backing.pager.pmm`state, backing.pager.pmm.pages, backing.pager.pmm.freeLists
      ensures OnPages() && |mem| == |old(mem)| + PAGE_SIZE && old(mem) <= mem
      ensures Some(backing.pager.Used()) == old(HeapOne(backing.pager.Used(), backing.pager.Own(), FIRST + |backing.frames|))
      ensures backing.pager.Own() == old(backing.pager.Own())
    {
      hide Backing.Valid, HeapOne;
      backing.AddPage(virtual);
      assert |seq(PAGE_SIZE, _ => 0 as byte)| == PAGE_SIZE;
      var page: seq<byte> :| |page| == PAGE_SIZE;
      mem := mem + page;
    }

    /** split_block on hole i of hs. */
    method SplitBlock(block: nat, size: nat, ghost hs: seq<Chunk>, ghost i: nat)
      requires Represents(mem, hs, heapEnd) && heapEnd == KHEAP_START + |mem| && size + H < LIMIT
      requires i < |hs| && hs[i].hole && hs[i].addr == block
      modifies this`mem
      ensures |mem| == |old(mem)| && Represents(mem, Split(hs, i, size), heapEnd)
      ensures PayloadsKept(old(mem), mem, hs)
    {
      ghost var m := mem;
      ChunkFacts(m, hs, heapEnd, i);
      if ReadHeader(mem, block).size <= size + H {
        assert Split(hs, i, size) == hs && PayloadsKept(m, mem, hs);
        return;
      }
      if i + 1 < |hs| { ChunkFacts(m, hs, heapEnd, i + 1); }
      hide Represents, ReadHeader, WroteOnly, InitHole, SetPrev, SetNext, SetSize, LinkHole, SplitBytes, SplitWritten, Split, PayloadsKept;
      var newHole := block + H + size;
      var b := ReadHeader(mem, block);
      var rest := b.size - size - H;
      SplitBytesAt(m, block, newHole, size, rest, b.next);
      mem := SplitBytes(mem, block, newHole, size, rest, b.next);
      SplitRepresents(m, mem, hs, i, size, heapEnd, block, newHole, rest, b.next);
    }

    /** expand_heap. */
    method ExpandHeap(newSize: nat)
      requires Valid() && newSize >= H && heapEnd + RoundUp(newSize) <= LIMIT
      requires backing.Adding(RoundUp(newSize) / 4096).Some?
      modifies this, backing, backing.pager, backing.pager.pmm`state, backing.pager.pmm.pages, backing.pager.pmm.freeLists
      ensures Valid() && heapEnd == old(heapEnd) + RoundUp(newSize)
      ensures chunks == Extend(old(chunks), old(heapEnd), RoundUp(newSize))
      ensures PayloadsKept(old(mem), mem, old(chunks))
      ensures Some(backing.pager.Used()) == old(backing.Adding(RoundUp(newSize) / 4096))
      ensures backing.pager.Own() == old(backing.pager.Own())
    {
      hide Represents, PayloadsKept, Inv, Extend, Backing.Valid, Backing.Adding;
      var n := if newSize % PAGE_SIZE != 0 then (newSize / PAGE_SIZE + 1) * PAGE_SIZE else newSize;
      ghost var m, hs := mem, chunks;
      MapPages(heapEnd, n);
      GrowRepresents(m, mem, chunks, heapEnd);
      ghost var q := mem;
      UseMapped(n);
      PayloadsChain(m, q, mem, hs, hs);
    }

    /** The rest of expand_heap, after the mapping loop: the n new bytes join the last hole,
        or become a hole of their own. */
    method UseMapped(n: nat)
      requires OnPages() && heapEnd + n == KHEAP_START + |mem| <= LIMIT && heapEnd % PAGE_SIZE == n % PAGE_SIZE == 0 && n >= H
      requires Represents(mem, chunks, heapEnd) && Inv(chunks, KHEAP_START, heapEnd) && LastNotEmpty(chunks)
      modifies this
      ensures Valid() && heapEnd == old(heapEnd) + n && chunks == Extend(old(chunks), old(heapEnd), n)
      ensures |mem| == |old(mem)| && PayloadsKept(old(mem), mem, old(chunks))
    {
      hide Represents, PayloadsKept, Inv, LastBytes, Extend, ReadHeader, Read32, Live, Backing.Valid;
      var last := LastChunk();
      ExtendKeeps(chunks, KHEAP_START, heapEnd, n);
      LastBytesRepresent(mem, chunks, heapEnd, n, last);
      mem := LastBytes(mem, last, heapEnd, n);
      chunks := Extend(chunks, heapEnd, n);
      heapEnd := heapEnd + n;
      assert heapEnd % 4096 == 0;
    }

    /** The walk to the last header. */
    method LastChunk() returns (last: nat)
      requires Represents(mem, chunks, heapEnd)
      ensures |chunks| > 0 && last == chunks[|chunks| - 1].addr
    {
      last := KHEAP_START;
      ghost var k := 0;
      ChunkFacts(mem, chunks, heapEnd, 0);
      while ReadHeader(mem, last).next != NULL
        invariant k < |chunks| && last == chunks[k].addr
        invariant Mapped(mem, last) && ReadHeader(mem, last) == HeaderOf(chunks, k)
        decreases |chunks| - k
      {
        last := ReadHeader(mem, last).next;
        k := k + 1;
        ChunkFacts(mem, chunks, heapEnd, k);
      }
      ChunkFacts(mem, chunks, heapEnd, k);
    }

    /** The part of kmalloc_internal's loop body that serves the request from hole j. */
    method Carve(hole: nat, size: nat, padding: nat, ghost j: nat, ghost align: bool) returns (ptr: nat)
      requires Represents(mem, chunks, heapEnd) && heapEnd == KHEAP_START + |mem| && size + H < LIMIT
      requires j < |chunks| && hole == chunks[j].addr && Suits(chunks[j], size, align) && Clears(chunks[j], align)
      requires padding == Padding(chunks[j], align)
      modifies this`mem
      ensures |mem| == |old(mem)| && Represents(mem, Place(chunks, j, size, align), heapEnd)
      ensures PayloadsKept(old(mem), mem, chunks) && ptr == Granted(chunks[j], size, align).Data()
    {
      hide Represents, PayloadsKept, Split, Suits, Padding, Place, Granted, CutFront, Live, Read32;
      ghost var m, hs := mem, chunks;
      ghost var cut, k := CutFront(hs, j, align), Slot(hs, j, align);
      var curr := hole;
      CutFacts(hs, j, size, align);
      if padding > H {
        var front := padding - H;
        SplitBlock(curr, front, hs, j);
        ChunkFacts(mem, cut, heapEnd, j);
        curr := ReadHeader(mem, curr).next;
      } else {
        PayloadsSame(m, hs);
      }
      ghost var m1 := mem;
      SplitBlock(curr, size, cut, k);
      ghost var cut2, m2 := Split(cut, k, size), mem;
      ChunkFacts(mem, cut2, heapEnd, k);
      mem := SetIsHole(mem, curr, 0);
      MarkRepresents(m2, mem, cut2, k, false, heapEnd);
      PayloadsChain(m, m1, m2, hs, cut);
      PayloadsChain(m, m2, mem, hs, cut2);
      ptr := curr + H;
    }

    /** The tests the scan makes of a chunk. */
    static method TestHole(curr: nat, header: Header, size: nat, align: bool, ghost c: Chunk)
      returns (suits: bool, padding: nat)
      requires curr == c.addr && header.size == c.size < LIMIT && (header.isHole != 0 <==> c.hole)
      requires size <= LIMIT - PAGE_SIZE
      ensures suits <==> Suits(c, size, align)
      ensures suits ==> padding == Padding(c, align)
    {
      hide Padding, Bits.Base;
      PaddingByMask(c, align);
      TestIsRight(c, size, align);
      suits, padding := false, 0;
      if header.isHole != 0 {
        var dataAddr := curr + H;
        var adjusted := if align && Bits.Base(dataAddr, 12) != dataAddr then Bits.Base(dataAddr + 0xFFF, 12) else dataAddr;
        padding := adjusted - dataAddr;
        suits := header.size >= (padding + size) % LIMIT && (padding > H || padding == 0);
      }
    }

    /** The scan loop of kmalloc_internal: the first hole that suits, and its padding. */
    method FindHole(size: nat, align: bool) returns (curr: nat, padding: nat)
      requires Valid() && size <= LIMIT - PAGE_SIZE
      ensures var i := Scan(chunks, 0, size, align);
        if i == |chunks| then curr == NULL
        else curr == chunks[i].addr && curr != NULL && padding == Padding(chunks[i], align)
    {
      hide ReadHeader, Padding, Represents, Inv, OnPages, Suits, LastNotEmpty;
      curr, padding := KHEAP_START, 0;
      FirstChunk(mem, chunks, heapEnd);
      ghost var i := 0;
      ChunkFacts(mem, chunks, heapEnd, 0);
      while curr != NULL
        invariant i <= |chunks| && (curr == NULL <==> i == |chunks|)
        invariant i < |chunks| ==> curr == chunks[i].addr && Mapped(mem, curr) && ReadHeader(mem, curr) == HeaderOf(chunks, i)
        invariant Scan(chunks, i, size, align) == Scan(chunks, 0, size, align)
        decreases |chunks| - i
      {
        var header := ReadHeader(mem, curr);
        if i + 1 < |chunks| { ChunkFacts(mem, chunks, heapEnd, i + 1); }
        ChunkFacts(mem, chunks, heapEnd, i);
        var suits;
        suits, padding := TestHole(curr, header, size, align, chunks[i]);
        if suits {
          return;
        }
        curr, i := header.next, i + 1;
      }
    }

    /** kmalloc_internal: first fit, growing the heap once if nothing fits. */
    method KmallocInternal(size: nat, align: bool) returns (ptr: nat)
      requires Valid() && CanServe(size, align)
      modifies this, backing, backing.pager, backing.pager.pmm`state, backing.pager.pmm.pages, backing.pager.pmm.freeLists
      ensures Valid() && heapEnd == GrownEnd(old(chunks), old(heapEnd), size, align)
      ensures Served(Grown(old(chunks), old(heapEnd), size, align), size, align, chunks, ptr)
      ensures PayloadsKept(old(mem), mem, old(chunks))
      ensures Some(backing.pager.Used()) == old(Serving(size, align)) && backing.pager.Own() == old(backing.pager.Own())
      decreases if Scan(chunks, 0, size, align) < |chunks| then 0 else 1
    {
      hide Represents, PayloadsKept, Place, Suits, Granted, Padding, Extend, Inv, Live, Scan, Stuck, Clears, OnPages, Backing.Adding;
      ServableSize(mem, chunks, heapEnd, size, align);
      var curr, padding := FindHole(size, align);
      ghost var i := Scan(chunks, 0, size, align);
      if curr != NULL {
        ptr := TakeHole(curr, size, padding, i, align);
      } else {
        ghost var m, hs := mem, chunks;
        GrowHeap(size, align);
        ghost var q, grown := mem, chunks;
        ptr := KmallocInternal(size, align);
        PayloadsChain(m, q, mem, hs, grown);
      }
    }

    /** Serve a request from the hole found. */
    method TakeHole(curr: nat, size: nat, padding: nat, ghost i: nat, ghost align: bool) returns (ptr: nat)
      requires Valid() && i < |chunks| && Clears(chunks[i], align) && size + H < LIMIT
      requires i < |chunks| && curr == chunks[i].addr && padding == Padding(chunks[i], align) && Suits(chunks[i], size, align)
      modifies this
      ensures Valid() && heapEnd == old(heapEnd) && chunks == Place(old(chunks), i, size, align)
      ensures ptr == Granted(old(chunks)[i], size, align).Data() && PayloadsKept(old(mem), mem, old(chunks))
    {
      hide Represents, PayloadsKept, Place, Suits, Granted, Padding, Inv;
      PlaceKeeps(chunks, i, size, align, KHEAP_START, heapEnd);
      PlaceNotEmpty(chunks, i, size, align);
      ptr := Carve(curr, size, padding, i, align);
      chunks := Place(chunks, i, size, align);
    }

    /** Expand the heap so that the request fits. */
    method GrowHeap(size: nat, align: bool)
      requires Valid() && CanServe(size, align) && Scan(chunks, 0, size, align) == |chunks|
      modifies this, backing, backing.pager, backing.pager.pmm`state, backing.pager.pmm.pages, backing.pager.pmm.freeLists
      ensures Valid() && heapEnd == old(heapEnd) + Growth(size, align)
      ensures chunks == Extend(old(chunks), old(heapEnd), Growth(size, align))
      ensures CanServe(size, align) && Scan(chunks, 0, size, align) < |chunks|
      ensures PayloadsKept(old(mem), mem, old(chunks)) && Live(old(chunks)) <= Live(chunks)
      ensures Some(backing.pager.Used()) == old(Serving(size, align)) && backing.pager.Own() == old(backing.pager.Own())
    {
      hide Represents, PayloadsKept, Extend, Inv, Live, Scan, Stuck, Growth, Clears, OnPages, Backing.Adding;
      OneExpansion(chunks, KHEAP_START, heapEnd, size, align);
      GrowthBounds(size, align);
      ExtendKeeps(chunks, KHEAP_START, heapEnd, Growth(size, align));
      ExpandHeap(size + (if align then PAGE_SIZE else 0) + H);
    }

    /** One merge of kfree: chunk i, a hole at a, swallows the hole behind it, at b. */
    method Merge(a: nat, b: nat, ghost hs: seq<Chunk>, ghost i: nat)
      requires Represents(mem, hs, heapEnd) && heapEnd == KHEAP_START + |mem|
      requires i + 1 < |hs| && hs[i].hole && hs[i + 1].hole && a == hs[i].addr && b == hs[i + 1].addr
      modifies this`mem
      ensures |mem| == |old(mem)| && Represents(mem, Join(hs, i), heapEnd) && Live(hs) <= Live(Join(hs, i))
      ensures PayloadsKept(old(mem), mem, hs)
    {
      hide Represents, ReadHeader, WroteOnly, JoinBytes, JoinWritten, Join, PayloadsKept, Live;
      ChunkFacts(mem, hs, heapEnd, i);
      ChunkFacts(mem, hs, heapEnd, i + 1);
      if i + 2 < |hs| { ChunkFacts(mem, hs, heapEnd, i + 2); }
      JoinLive(hs, i);
      ghost var m := mem;
      var size := ReadHeader(mem, a).size + ReadHeader(mem, b).size + H;
      var next := ReadHeader(mem, b).next;
      JoinBytesAt(mem, a, size, next);
      mem := JoinBytes(mem, a, size, next);
      JoinRepresents(m, mem, hs, i, heapEnd, a, size, next);
    }

    /** Merge forward. */
    method MergeNext(header: nat, ghost hs: seq<Chunk>, ghost i: nat)
      requires Represents(mem, hs, heapEnd) && heapEnd == KHEAP_START + |mem|
      requires i < |hs| && hs[i].hole && header == hs[i].addr
      modifies this`mem
      ensures |mem| == |old(mem)| && Represents(mem, JoinNext(hs, i), heapEnd) && Live(hs) <= Live(JoinNext(hs, i))
      ensures PayloadsKept(old(mem), mem, hs)
    {
      hide Represents, ReadHeader, PayloadsKept, Live, Join;
      ChunkFacts(mem, hs, heapEnd, i);
      if i + 1 < |hs| { ChunkFacts(mem, hs, heapEnd, i + 1); }
      PayloadsSame(mem, hs);
      var next := ReadHeader(mem, header).next;
      if next != NULL && ReadHeader(mem, next).isHole != 0 {
        Merge(header, next, hs, i);
      }
    }

    /** Merge backward. */
    method MergePrev(header: nat, ghost hs: seq<Chunk>, ghost i: nat)
      requires Represents(mem, hs, heapEnd) && heapEnd == KHEAP_START + |mem|
      requires i < |hs| && hs[i].hole && header == hs[i].addr
      modifies this`mem
      ensures |mem| == |old(mem)| && Represents(mem, JoinPrev(hs, i), heapEnd)
      ensures PayloadsKept(old(mem), mem, hs)
    {
      hide Represents, ReadHeader, PayloadsKept, Live, Join;
      ChunkFacts(mem, hs, heapEnd, i);
      if i > 0 { ChunkFacts(mem, hs, heapEnd, i - 1); }
      PayloadsSame(mem, hs);
      var prev := ReadHeader(mem, header).prev;
      if prev != NULL && ReadHeader(mem, prev).isHole != 0 {
        Merge(prev, header, hs, i - 1);
      }
    }

    /** The merges of kfree, once chunk i is marked a hole. */
    method MergeAround(header: nat, ghost hs: seq<Chunk>, ghost i: nat)
      requires Represents(mem, hs, heapEnd) && heapEnd == KHEAP_START + |mem|
      requires i < |hs| && hs[i].hole && header == hs[i].addr
      modifies this`mem
      ensures |mem| == |old(mem)| && Represents(mem, JoinPrev(JoinNext(hs, i), i), heapEnd)
      ensures PayloadsKept(old(mem), mem, hs)
    {
      ghost var m := mem;
      MergeNext(header, hs, i);
      ghost var fwd, q := JoinNext(hs, i), mem;
      assert i < |fwd| && fwd[i].hole && fwd[i].addr == header;
      hide Represents, PayloadsKept, Live, JoinNext, JoinPrev;
      MergePrev(header, fwd, i);
      PayloadsChain(m, q, mem, hs, fwd);
    }

    /** kfree of chunk i. A pointer outside the heap, or one behind a header without the
        magic number, is ignored; no live chunk's pointer is. */
    method Kfree(ptr: nat, ghost i: nat)
      requires Valid()
      requires KHEAP_START <= ptr < heapEnd ==>
        && Mapped(mem, ptr - H)
        && (ReadHeader(mem, ptr - H).magic == KHEAP_MAGIC ==> i < |chunks| && !chunks[i].hole && chunks[i].Data() == ptr)
      modifies this
      ensures Valid() && heapEnd == old(heapEnd)
      ensures old(KHEAP_START <= ptr < heapEnd && ReadHeader(mem, ptr - H).magic == KHEAP_MAGIC) ==>
        chunks == Free(old(chunks), i) && PayloadsKept(old(mem), mem, chunks)
      ensures !old(KHEAP_START <= ptr < heapEnd && ReadHeader(mem, ptr - H).magic == KHEAP_MAGIC) ==>
        chunks == old(chunks) && mem == old(mem)
      ensures old(i < |chunks| && !chunks[i].hole && chunks[i].Data() == ptr) ==>
        chunks == Free(old(chunks), i) && PayloadsKept(old(mem), mem, chunks)
    {
      hide Represents, ReadHeader, PayloadsKept, Free, Inv, OnPages, LastNotEmpty;
      if i < |chunks| { LiveHeader(mem, chunks, heapEnd, i); }
      if ptr == NULL || ptr < KHEAP_START || ptr >= heapEnd { return; }
      var header := ptr - H;
      if ReadHeader(mem, header).magic != KHEAP_MAGIC { return; }
      ChunkFacts(mem, chunks, heapEnd, i);
      Release(header, i);
    }

    /** The part of kfree behind its checks. */
    method Release(header: nat, ghost i: nat)
      requires Valid() && i < |chunks| && !chunks[i].hole && chunks[i].addr == header
      modifies this
      ensures Valid() && heapEnd == old(heapEnd)
      ensures chunks == Free(old(chunks), i) && PayloadsKept(old(mem), mem, chunks)
    {
      hide Backing.Valid, Represents, Inv, ReadHeader, WroteOnly, PayloadsKept, Live;
      ghost var m, hs, t := mem, chunks, chunks[i := chunks[i].(hole := true)];
      ChunkFacts(m, hs, heapEnd, i);
      FreeKeeps(hs, i, KHEAP_START, heapEnd);
      FreeNotEmpty(hs, i, KHEAP_START, heapEnd);
      FreeLive(hs, i, KHEAP_START, heapEnd);
      MarkedLive(hs, i);
      assert t[i].hole && t[i].addr == header && Free(hs, i) == JoinPrev(JoinNext(t, i), i);
      hide JoinNext, JoinPrev, Free;
      mem := SetIsHole(mem, header, 1);
      MarkRepresents(m, mem, hs, i, true, heapEnd);
      ghost var m1 := mem;
      MergeAround(header, t, i);
      chunks := Free(hs, i);
      PayloadsOfFewer(m, m1, hs, t);
      PayloadsChain(m, m1, mem, t, t);
      PayloadsOfFewer(m, mem, t, chunks);
    }

    /** kmalloc. */
    method Kmalloc(size: nat) returns (ptr: nat)
      requires Valid() && CanServe(size, false)
      modifies this, backing, backing.pager, backing.pager.pmm`state, backing.pager.pmm.pages, backing.pager.pmm.freeLists
      ensures Valid() && heapEnd == GrownEnd(old(chunks), old(heapEnd), size, false)
      ensures Served(Grown(old(chunks), old(heapEnd), size, false), size, false, chunks, ptr)
      ensures PayloadsKept(old(mem), mem, old(chunks))
      ensures Some(backing.pager.Used()) == old(Serving(size, false)) && backing.pager.Own() == old(backing.pager.Own())
    {
      ptr := KmallocInternal(size, false);
    }

    /** kmalloc_a. */
    method KmallocA(size: nat) returns (ptr: nat)
      requires Valid() && CanServe(size, true)
      modifies this, backing, backing.pager, backing.pager.pmm`state, backing.pager.pmm.pages, backing.pager.pmm.freeLists
      ensures Valid() && heapEnd == GrownEnd(old(chunks), old(heapEnd), size, true)
      ensures Served(Grown(old(chunks), old(heapEnd), size, true), size, true, chunks, ptr)
      ensures PayloadsKept(old(mem), mem, old(chunks))
      ensures Some(backing.pager.Used()) == old(Serving(size, true)) && backing.pager.Own() == old(backing.pager.Own())
    {
      ptr := KmallocInternal(size, true);
    }
  }
}
