/** src/kernel/initrd.c: the kernel's reader of the ramdisk image. */
module Initrd {
  import opened Image
  import opened Options
  import opened Words

  /** The fields of vfs_node_t that depend on the image. */
  datatype Node = Node(name: seq<byte>, length: nat, inode: nat)

  /** initrd_root, initrd_dev or &root_nodes[i]. */
  datatype Ref = Root | Dev | Entry(i: nat)

  datatype Dirent = Dirent(name: seq<byte>, inode: nat)

  const DEV: seq<byte> := [100, 101, 118]     // "dev"

  // ---------------------------------------------------------------- the image in memory

  /** The string at address a, up to its NUL. */
  function CString(m: seq<byte>, a: nat): seq<byte>
    decreases |m| - a
  {
    if a >= |m| || m[a] == 0 then [] else [m[a]] + CString(m, a + 1)
  }

  /** A file name cannot contain a NUL. */
  predicate NulFree(files: seq<File>) {
    forall i :: 0 <= i < |files| ==> (0 as char) !in Name(files[i].path)
  }

  function HeaderAddress(location: nat, i: nat): nat {
    location + 4 + 76 * i
  }

  ghost predicate NameAt(m: seq<byte>, a: nat, name: seq<byte>) {
    && a + |name| < |m| && m[a + |name|] == 0
    && forall k :: 0 <= k < |name| ==> m[a + k] == name[k] && name[k] != 0
  }

  ghost predicate HasSlice(m: seq<byte>, a: nat, x: seq<byte>) {
    a + |x| <= |m| && m[a..a + |x|] == x
  }

  /** At h there is a header with this name and offset field, at a the content. */
  ghost predicate PartsAt(m: seq<byte>, h: nat, a: nat, name: seq<byte>, offset: nat, content: seq<byte>) {
    && h + 76 <= |m| && HasSlice(m, a, content)
    && NameAt(m, h + 4, name) && Read32(m, h + 68) == offset && Read32(m, h + 72) == |content|
  }

  function ContentAddress(files: seq<File>, location: nat, i: nat): nat
    requires i < |files|
  {
    location + Offset(files, i)
  }

  /** Header and content of file i are in memory; offset is in the offset field. */
  ghost predicate FileAt(m: seq<byte>, files: seq<File>, location: nat, i: nat, offset: nat)
    requires Writable(files) && i < |files|
  {
    PartsAt(m, HeaderAddress(location, i), ContentAddress(files, location, i), FileName(files, i), offset, files[i].content)
  }

  lemma {:induction false} NameReads(m: seq<byte>, a: nat, name: seq<byte>)
    requires NameAt(m, a, name)
    ensures CString(m, a) == name
    decreases |name|
  {
    if name != [] {
      assert m[a + 0] == name[0];
      NameReads(m, a + 1, name[1..]);
    }
  }

  /** The fields of a packed header. */
  lemma HeaderFields(name: seq<byte>, offset: nat, length: nat)
    requires |name| <= MAX_NAME && offset < LIMIT && length < LIMIT
    ensures var h := HeaderBytes(name, offset, length);
      && Read32(h, 68) == offset && Read32(h, 72) == length
      && h[4..4 + |name|] == name && h[4 + |name|] == 0
  {
    hide Bytes32;
    var h := HeaderBytes(name, offset, length);
    var padded := name + Zeros(64 - |name|);
    assert h[4..68] == padded;
    assert h[68..72] == Bytes32(offset)[0..4];
    assert h[72..76] == Bytes32(length)[0..4];
    hide Read32, HeaderBytes;
    SameWord(h, 68, Bytes32(offset), 0);
    SameWord(h, 72, Bytes32(length), 0);
    assert h[4..4 + |name|] == h[4..68][..|name|];
    assert h[4 + |name|] == h[4..68][|name|];
  }

  lemma Addresses(files: seq<File>, location: nat, i: nat)
    requires i < |files|
    ensures HeaderAddress(location, i) == location + (4 + 76 * i)
    ensures ContentAddress(files, location, i) == location + Offset(files, i)
  {
  }

  lemma SubSlice(m: seq<byte>, l: nat, g: seq<byte>, a: nat, x: seq<byte>, at: nat)
    requires HasSlice(m, l, g) && HasSlice(g, a, x) && at == l + a
    ensures HasSlice(m, at, x)
  {
    var y := m[at..at + |x|];
    forall k | 0 <= k < |x| ensures x[k] == y[k] {
      assert g[a..a + |x|][k] == g[a + k];
      assert m[l..l + |g|][a + k] == m[at + k];
    }
  }

  lemma HeaderUnpacks(m: seq<byte>, h: nat, x: seq<byte>)
    requires HasSlice(m, h, x) && |x| == 76
    ensures h + 76 <= |m|
    ensures Read32(m, h + 68) == Read32(x, 68) && Read32(m, h + 72) == Read32(x, 72)
  {
    hide Read32;
    SubSlice(m, h, x, 68, x[68..72], h + 68);
    SubSlice(m, h, x, 72, x[72..76], h + 72);
    SameWord(m, h + 68, x, 68);
    SameWord(m, h + 72, x, 72);
  }

  lemma NameUnpacks(m: seq<byte>, h: nat, x: seq<byte>, name: seq<byte>)
    requires HasSlice(m, h, x) && |x| == 76 && |name| <= MAX_NAME
    requires x[4..4 + |name|] == name && x[4 + |name|] == 0
    requires forall k :: 0 <= k < |name| ==> name[k] != 0
    ensures NameAt(m, h + 4, name)
  {
    var a := h + 4;
    assert m[h..h + 76][4 + |name|] == m[a + |name|];
    forall k | 0 <= k < |name| ensures m[a + k] == name[k] {
      assert m[h..h + 76][4 + k] == m[a + k];
      assert x[4..4 + |name|][k] == x[4 + k];
    }
  }

  lemma PartsUnpack(m: seq<byte>, h: nat, c: nat, name: seq<byte>, offset: nat, content: seq<byte>)
    requires |name| <= MAX_NAME && offset < LIMIT && |content| < LIMIT
    requires HasSlice(m, h, HeaderBytes(name, offset, |content|)) && HasSlice(m, c, content)
    requires forall k :: 0 <= k < |name| ==> name[k] != 0
    ensures PartsAt(m, h, c, name, offset, content)
  {
    hide HeaderBytes, HasSlice, Read32, NameAt;
    HeaderFields(name, offset, |content|);
    HeaderUnpacks(m, h, HeaderBytes(name, offset, |content|));
    NameUnpacks(m, h, HeaderBytes(name, offset, |content|), name);
  }

  lemma ImageHas(files: seq<File>, i: nat)
    requires Writable(files) && i < |files|
    ensures HasSlice(ImageOf(files), 4 + 76 * i, Header(files, i))
    ensures HasSlice(ImageOf(files), Offset(files, i), files[i].content)
  {
    hide ImageOf, Header, Packable;
    ImageAt(files, i);
  }

  lemma NamesAreStrings(files: seq<File>, i: nat)
    requires Writable(files) && NulFree(files) && i < |files|
    ensures forall k :: 0 <= k < |FileName(files, i)| ==> FileName(files, i)[k] != 0
  {
    assert Packable(files, i);
    var name := Name(files[i].path);
    forall k | 0 <= k < |name| ensures Encoded(name)[k] != 0 {
      assert name[k] in name;
    }
  }

  lemma ImageParts(m: seq<byte>, files: seq<File>, location: nat, i: nat)
    requires Writable(files) && NulFree(files) && i < |files| && HasSlice(m, location, ImageOf(files))
    ensures PartsAt(m, HeaderAddress(location, i), ContentAddress(files, location, i), FileName(files, i), Offset(files, i), files[i].content)
  {
    hide *;
    HeaderIs(files, i);
    var h, c := HeaderAddress(location, i), ContentAddress(files, location, i);
    ImageHas(files, i);
    Addresses(files, location, i);
    SubSlice(m, location, ImageOf(files), 4 + 76 * i, Header(files, i), h);
    SubSlice(m, location, ImageOf(files), Offset(files, i), files[i].content, c);
    NamesAreStrings(files, i);
    PartsUnpack(m, h, c, FileName(files, i), Offset(files, i), files[i].content);
  }

  lemma WholeImage(m: seq<byte>, location: nat, g: seq<byte>)
    requires location + |g| <= |m| && m[location..location + |g|] == g
    ensures HasSlice(m, location, g)
  {
  }

  /** The image as mkinitrd writes it, wherever it is in memory. */
  lemma ImageUnpacks(m: seq<byte>, files: seq<File>, location: nat, i: nat)
    requires Writable(files) && NulFree(files) && i < |files| && location + |ImageOf(files)| <= |m|
    requires m[location..location + |ImageOf(files)|] == ImageOf(files)
    ensures FileAt(m, files, location, i, Offset(files, i))
  {
    hide PartsAt, ImageOf;
    WholeImage(m, location, ImageOf(files));
    ImageParts(m, files, location, i);
  }

  /** The bytes agree except for the word at w. */
  ghost predicate AllBut(m: seq<byte>, r: seq<byte>, w: nat) {
    |r| == |m| && forall x :: 0 <= x < |m| && !(w <= x < w + 4) ==> r[x] == m[x]
  }

  lemma SliceKept(m: seq<byte>, r: seq<byte>, w: nat, a: nat, x: seq<byte>)
    requires AllBut(m, r, w) && HasSlice(m, a, x) && (a + |x| <= w || w + 4 <= a)
    ensures HasSlice(r, a, x)
  {
    assert r[a..a + |x|] == m[a..a + |x|];
  }

  lemma WordKept(m: seq<byte>, r: seq<byte>, w: nat, a: nat)
    requires AllBut(m, r, w) && a + 4 <= |m| && (a + 4 <= w || w + 4 <= a)
    ensures Read32(r, a) == Read32(m, a)
  {
    hide Read32;
    assert r[a..a + 4] == m[a..a + 4];
    SameWord(m, a, r, a);
  }

  lemma NameKept(m: seq<byte>, r: seq<byte>, w: nat, a: nat, name: seq<byte>)
    requires AllBut(m, r, w) && NameAt(m, a, name) && (a + |name| < w || w + 4 <= a)
    ensures NameAt(r, a, name)
  {
  }

  /** A word away from a file's header and content does not matter to it. */
  lemma PartsKept(m: seq<byte>, r: seq<byte>, w: nat, h: nat, a: nat, name: seq<byte>, offset: nat, content: seq<byte>)
    requires AllBut(m, r, w) && PartsAt(m, h, a, name, offset, content) && |name| <= MAX_NAME
    requires (h + 76 <= w || w + 4 <= h) && w + 4 <= a
    ensures PartsAt(r, h, a, name, offset, content)
  {
    hide Read32, NameAt, HasSlice;
    WordKept(m, r, w, h + 68);
    WordKept(m, r, w, h + 72);
    SliceKept(m, r, w, a, content);
    NameKept(m, r, w, h + 4, name);
  }

  /** Rewriting the offset field changes just that. */
  lemma OffsetWritten(m: seq<byte>, r: seq<byte>, h: nat, a: nat, name: seq<byte>, offset: nat, offset': nat, content: seq<byte>)
    requires AllBut(m, r, h + 68) && PartsAt(m, h, a, name, offset, content) && |name| <= MAX_NAME && h + 76 <= a
    requires Read32(r, h + 68) == offset'
    ensures PartsAt(r, h, a, name, offset', content)
  {
    hide Read32, NameAt, HasSlice;
    WordKept(m, r, h + 68, h + 72);
    SliceKept(m, r, h + 68, a, content);
    NameKept(m, r, h + 68, h + 4, name);
  }

  /** Contents lie behind all headers, and headers do not overlap. */
  lemma BehindHeaders(files: seq<File>, location: nat, i: nat, j: nat)
    requires i < |files| && j < |files|
    ensures HeaderAddress(location, i) + 76 <= ContentAddress(files, location, j)
    ensures i != j ==>
      HeaderAddress(location, i) + 76 <= HeaderAddress(location, j) || HeaderAddress(location, j) + 76 <= HeaderAddress(location, i)
  {
  }

  /** Rewriting the offset field of file i leaves the other files alone. */
  lemma OthersKept(m: seq<byte>, r: seq<byte>, files: seq<File>, location: nat, i: nat, j: nat, offset: nat)
    requires Writable(files) && i < |files| && j < |files| && i != j && FileAt(m, files, location, j, offset)
    requires AllBut(m, r, HeaderAddress(location, i) + 68)
    ensures FileAt(r, files, location, j, offset)
  {
    hide Read32, Offset, PartsAt, HeaderAddress, ContentAddress, FileName, Packable;
    BehindHeaders(files, location, i, j);
    PartsKept(m, r, HeaderAddress(location, i) + 68, HeaderAddress(location, j), ContentAddress(files, location, j),
              FileName(files, j), offset, files[j].content);
  }

  lemma ThisRelocated(m: seq<byte>, r: seq<byte>, files: seq<File>, location: nat, i: nat, offset: nat, offset': nat)
    requires Writable(files) && i < |files| && FileAt(m, files, location, i, offset)
    requires AllBut(m, r, HeaderAddress(location, i) + 68) && HeaderAddress(location, i) + 76 <= |m|
    requires Read32(r, HeaderAddress(location, i) + 68) == offset'
    ensures FileAt(r, files, location, i, offset')
  {
    hide Read32, Offset, PartsAt, HeaderAddress, ContentAddress, FileName, Packable;
    BehindHeaders(files, location, i, i);
    OffsetWritten(m, r, HeaderAddress(location, i), ContentAddress(files, location, i),
                  FileName(files, i), offset, offset', files[i].content);
  }

  // ---------------------------------------------------------------- what the calls return

  /** The bytes that reading size bytes at offset yields. */
  function ReadOf(content: seq<byte>, offset: nat, size: nat): (r: seq<byte>)
    ensures |r| == if offset > |content| then 0 else if size <= |content| - offset then size else |content| - offset
    ensures offset <= |content| ==> r == content[offset..offset + |r|]
  {
    if offset > |content| then []
    else if offset + size > |content| then content[offset..]
    else content[offset..offset + size]
  }

  lemma ReadOfIs(content: seq<byte>, offset: nat, size: nat)
    requires offset <= |content|
    ensures var n := |ReadOf(content, offset, size)|;
      offset + n <= |content| && ReadOf(content, offset, size) == content[offset..offset + n]
  {
  }

  /** initrd_read's computation of the number of bytes, in 32-bit arithmetic. */
  function Clip(length: nat, offset: nat, size: nat): nat
    requires length < LIMIT
  {
    if offset > length then 0
    else if (offset + size) % LIMIT > length then length - offset
    else size
  }

  /** It is the number of bytes there are to read exactly if offset + size does not wrap
      around (or there is nothing to read anyway). */
  lemma ClipIsRight(content: seq<byte>, offset: nat, size: nat)
    requires |content| < LIMIT && offset < LIMIT && size < LIMIT
    ensures Clip(|content|, offset, size) == |ReadOf(content, offset, size)| <==> offset > |content| || offset + size < LIMIT
  {
  }

  /** Otherwise it copies all the bytes asked for, and runs over the end of the address space. */
  lemma WrongClip(content: seq<byte>, offset: nat, size: nat)
    requires |content| < LIMIT && offset < LIMIT && size < LIMIT
    requires Clip(|content|, offset, size) != |ReadOf(content, offset, size)|
    ensures Clip(|content|, offset, size) == size > |content| - offset && offset + size >= LIMIT
  {
  }

  /** So it does at offset 5 of ten bytes. */
  lemma ClipFails(content: seq<byte>)
    requires |content| == 10
    ensures |ReadOf(content, 5, 0xFFFF_FFFF)| == 5 && Clip(10, 5, 0xFFFF_FFFF) == 0xFFFF_FFFF
  {
  }

  function Names(files: seq<File>): (r: seq<seq<byte>>)
    requires Writable(files)
    ensures |r| == |files| && forall i :: 0 <= i < |files| ==> r[i] == FileName(files, i)
  {
    seq(|files|, i requires 0 <= i < |files| => FileName(files, i))
  }

  /** The first of names from i on that is name; |names| if there is none. */
  function Find(names: seq<seq<byte>>, name: seq<byte>, i: nat): (j: nat)
    requires i <= |names|
    ensures i <= j <= |names|
    ensures j < |names| ==> names[j] == name
    ensures forall k :: i <= k < j ==> names[k] != name
    decreases |names| - i
  {
    if i == |names| || names[i] == name then i else Find(names, name, i + 1)
  }

  function FinddirOf(names: seq<seq<byte>>, node: Ref, name: seq<byte>): Option<Ref> {
    var i := Find(names, name, 0);
    if node == Root && name == DEV then Some(Dev) else if i < |names| then Some(Entry(i)) else None
  }

  function ReaddirOf(names: seq<seq<byte>>, node: Ref, index: nat): Option<Dirent> {
    if node != Root || index > |names| then None
    else if index == 0 then Some(Dirent(DEV, 0))
    else Some(Dirent(names[index - 1], index - 1))
  }

  // ---------------------------------------------------------------- the reader

  /** The first n files are mounted: their offsets relocated, their nodes set up. */
  ghost predicate MountedTo(m: seq<byte>, nodes: seq<Node>, files: seq<File>, location: nat, n: nat) {
    && Writable(files) && n == |nodes| <= |files| && location + 4 <= |m| < LIMIT && Read32(m, location) == |files|
    && (forall i :: n <= i < |files| ==> FileAt(m, files, location, i, Offset(files, i)))
    && (forall i :: 0 <= i < n ==> FileAt(m, files, location, i, ContentAddress(files, location, i)))
    && (forall i :: 0 <= i < n ==> nodes[i] == Node(FileName(files, i), |files[i].content|, i))
  }

  /** index - 1 in 32 bits. */
  lemma OneLess(index: nat)
    requires index < LIMIT
    ensures (index + LIMIT - 1) % LIMIT == if index == 0 then 0xFFFF_FFFF else index - 1
  {
    assert (index + 0x1_0000_0000 - 1) % 0x1_0000_0000 == if index == 0 then 0xFFFF_FFFF else index - 1;
  }

  lemma CountStays(m: seq<byte>, nodes: seq<Node>, files: seq<File>, location: nat, n: nat)
    requires MountedTo(m, nodes, files, location, n)
    ensures n == |nodes| <= |files| && location + 4 <= |m| && Read32(m, location) == |files|
  {
  }

  /** What a reader finds at file i's header. */
  lemma FileFacts(m: seq<byte>, files: seq<File>, location: nat, i: nat, offset: nat)
    requires Writable(files) && i < |files| && FileAt(m, files, location, i, offset)
    ensures var h := location + 4 + 76 * i;
      && h + 76 <= |m| && CString(m, h + 4) == FileName(files, i)
      && Read32(m, h + 68) == offset && Read32(m, h + 72) == |files[i].content|
    ensures location + Offset(files, i) + |files[i].content| <= |m|
    ensures m[location + Offset(files, i)..location + Offset(files, i) + |files[i].content|] == files[i].content
  {
    hide Read32, Offset, FileName, Packable;
    NameReads(m, HeaderAddress(location, i) + 4, FileName(files, i));
  }

  lemma NodeFacts(m: seq<byte>, nodes: seq<Node>, files: seq<File>, location: nat, i: nat)
    requires MountedTo(m, nodes, files, location, |files|) && i < |files|
    ensures var h, a, n := location + 4 + 76 * i, location + Offset(files, i), |files[i].content|;
      && h + 76 <= |m| && Read32(m, h + 68) == a && Read32(m, h + 72) == n
      && HasSlice(m, a, files[i].content)
  {
    hide FileAt, Read32, Offset, FileName;
    FileFacts(m, files, location, i, ContentAddress(files, location, i));
  }

  lemma AllUnpack(m: seq<byte>, files: seq<File>, location: nat)
    requires Writable(files) && NulFree(files) && location + |ImageOf(files)| <= |m|
    requires m[location..location + |ImageOf(files)|] == ImageOf(files)
    ensures forall i :: 0 <= i < |files| ==> FileAt(m, files, location, i, Offset(files, i))
  {
    hide ImageOf, FileAt, Offset, Packable;
    forall i | 0 <= i < |files| ensures FileAt(m, files, location, i, Offset(files, i)) {
      ImageUnpacks(m, files, location, i);
    }
  }

  /** The count in front of the headers. */
  lemma CountReads(m: seq<byte>, location: nat, files: seq<File>)
    requires Writable(files) && location + |ImageOf(files)| <= |m|
    requires m[location..location + |ImageOf(files)|] == ImageOf(files)
    ensures location + 4 <= |m| && Read32(m, location) == |files|
  {
    hide Read32, Bytes32, Headers, Contents;
    var g, count := ImageOf(files), Bytes32(|files|);
    assert g[0..4] == count;
    WholeImage(m, location, g);
    SubSlice(m, location, g, 0, count, location);
    assert count[0..4] == count;
    SameWord(m, location, count, 0);
  }

  lemma WordWritten(m: seq<byte>, r: seq<byte>, w: nat)
    requires w + 4 <= |m| && |r| == |m|
    requires forall x :: 0 <= x < |m| && !(w <= x < w + 4) ==> r[x] == m[x]
    ensures AllBut(m, r, w)
  {
  }

  lemma OneRelocated(m: seq<byte>, r: seq<byte>, files: seq<File>, location: nat, i: nat)
    requires Writable(files) && i < |files| && AllBut(m, r, location + 4 + 76 * i + 68)
    requires location + 4 + 76 * i + 76 <= |m| && Read32(r, location + 4 + 76 * i + 68) == location + Offset(files, i)
    requires forall j :: i <= j < |files| ==> FileAt(m, files, location, j, Offset(files, j))
    requires forall j :: 0 <= j < i ==> FileAt(m, files, location, j, ContentAddress(files, location, j))
    ensures forall j :: i < j < |files| ==> FileAt(r, files, location, j, Offset(files, j))
    ensures forall j :: 0 <= j <= i ==> FileAt(r, files, location, j, ContentAddress(files, location, j))
  {
    hide FileAt, Read32, Offset;
    forall j | i < j < |files| ensures FileAt(r, files, location, j, Offset(files, j)) {
      OthersKept(m, r, files, location, i, j, Offset(files, j));
    }
    forall j | 0 <= j <= i ensures FileAt(r, files, location, j, ContentAddress(files, location, j)) {
      if j < i {
        OthersKept(m, r, files, location, i, j, ContentAddress(files, location, j));
      } else {
        ThisRelocated(m, r, files, location, i, Offset(files, i), ContentAddress(files, location, i));
      }
    }
  }

  /** Byte x is in the offset field of one of the first n headers. */
  predicate InOffsetField(location: nat, n: nat, x: nat) {
    location + 4 <= x < location + 4 + 76 * n && 68 <= (x - location - 4) % 76 < 72
  }

  /** No other byte differs. */
  ghost predicate OffsetsOnly(m: seq<byte>, r: seq<byte>, location: nat, n: nat) {
    |r| == |m| && forall x: nat :: x < |m| && !InOffsetField(location, n, x) ==> r[x] == m[x]
  }

  lemma FieldOfOne(location: nat, i: nat, x: nat)
    ensures location + 4 + 76 * i + 68 <= x < location + 4 + 76 * i + 72 ==> InOffsetField(location, i + 1, x)
  {
    var k := x - location - 4;
    assert k == 76 * i + (k - 76 * i);
    assert 68 <= k - 76 * i < 72 ==> k % 76 == k - 76 * i;
  }

  lemma OneMoreOffset(m: seq<byte>, q: seq<byte>, r: seq<byte>, location: nat, i: nat)
    requires OffsetsOnly(m, q, location, i) && AllBut(q, r, location + 4 + 76 * i + 68)
    ensures OffsetsOnly(m, r, location, i + 1)
  {
    forall x: nat | x < |m| && !InOffsetField(location, i + 1, x) ensures r[x] == m[x] {
      FieldOfOne(location, i, x);
    }
  }

  /** Memory has no room for 2^32 headers. */
  lemma FewFiles(m: seq<byte>, nodes: seq<Node>, files: seq<File>, location: nat)
    requires MountedTo(m, nodes, files, location, |files|)
    ensures |files| + 2 < LIMIT && Writable(files)
  {
    hide Packable, FileName, Read32, HasSlice, NameAt;
    if |files| > 0 {
      var i := |files| - 1;
      assert FileAt(m, files, location, i, ContentAddress(files, location, i));
    }
  }

  /** Before the loop, the image is as it was written. */
  lemma NothingMounted(m: seq<byte>, files: seq<File>, location: nat)
    requires Writable(files) && NulFree(files) && |m| < LIMIT && location + |ImageOf(files)| <= |m|
    requires m[location..location + |ImageOf(files)|] == ImageOf(files)
    ensures MountedTo(m, [], files, location, 0) && OffsetsOnly(m, m, location, 0)
  {
    hide ImageOf, Writable, Read32, FileAt;
    CountReads(m, location, files);
    AllUnpack(m, files, location);
  }

  class Ramdisk {
    /** Memory from address 0 on. */
    var mem: seq<byte>
    /** The address of the array file_headers. */
    var fileHeaders: nat
    var rootNodes: seq<Node>
    ghost var files: seq<File>
    ghost var location: nat

    /** initialise_initrd has run on the image of files. */
    ghost predicate Mounted()
      reads this
    {
      fileHeaders == location + 4 && MountedTo(mem, rootNodes, files, location, |files|)
    }

    constructor (memory: seq<byte>)
      ensures mem == memory
    {
      mem, fileHeaders, rootNodes, files, location := memory, 0, [], [], 0;
    }

    /** initialise_initrd. */
    method Initialise(address: nat, ghost written: seq<File>)
      requires Writable(written) && NulFree(written) && |mem| < LIMIT && address + |ImageOf(written)| <= |mem|
      requires mem[address..address + |ImageOf(written)|] == ImageOf(written)
      modifies this
      ensures Mounted() && files == written && location == address
      ensures OffsetsOnly(old(mem), mem, address, |written|)
    {
      hide ImageOf, Writable, Read32, MountedTo, OffsetsOnly, AllBut;
      files, location := written, address;
      fileHeaders := address + 4;
      rootNodes := [];
      NothingMounted(mem, written, address);
      var i := 0;
      CountStays(mem, rootNodes, files, location, 0);
      while i < Read32(mem, address)
        invariant 0 <= i <= |files| && files == written && location == address && fileHeaders == address + 4
        invariant MountedTo(mem, rootNodes, files, location, i) && OffsetsOnly(old(mem), mem, address, i)
        invariant address + 4 <= |mem| && Read32(mem, address) == |files|
        decreases |files| - i
      {
        ghost var m := mem;
        MountOne(i, address);
        OneMoreOffset(old(mem), m, mem, address, i);
        i := i + 1;
        CountStays(mem, rootNodes, files, location, i);
      }
    }

    /** The body of the loop over the files. */
    method MountOne(i: nat, address: nat)
      requires MountedTo(mem, rootNodes, files, location, i) && i < |files|
      requires address == location && fileHeaders == location + 4
      modifies this`mem, this`rootNodes
      ensures MountedTo(mem, rootNodes, files, location, i + 1)
      ensures AllBut(old(mem), mem, location + 4 + 76 * i + 68)
    {
      hide Read32, Offset, FileAt, FileName, Packable;
      ghost var m := mem;
      var h := fileHeaders + 76 * i;
      FileFacts(mem, files, location, i, Offset(files, i));
      mem := Write32(mem, h + 68, (Read32(mem, h + 68) + address) % LIMIT);
      WordWritten(m, mem, h + 68);
      OneRelocated(m, mem, files, location, i);
      FileFacts(mem, files, location, i, ContentAddress(files, location, i));
      rootNodes := rootNodes + [Node(CString(mem, h + 4), Read32(mem, h + 72), i)];
      WordKept(m, mem, h + 68, location);
    }

    lemma NodeLength(i: nat)
      requires Mounted() && i < |files|
      ensures i < |rootNodes| && rootNodes[i].length == |files[i].content| < LIMIT
    {
      assert Packable(files, i);
    }

    /** initrd_read of a file node into a caller's buffer. */
    method Read(inode: nat, offset: nat, size: nat, buffer: array<byte>) returns (n: nat)
      requires Mounted() && inode < |files| && offset < LIMIT && size < LIMIT
      requires offset + size < LIMIT || offset > |files[inode].content|
      requires |ReadOf(files[inode].content, offset, size)| <= buffer.Length
      modifies buffer
      ensures n == |ReadOf(files[inode].content, offset, size)|
      ensures buffer[..n] == ReadOf(files[inode].content, offset, size)
      ensures buffer[n..] == old(buffer[n..])
    {
      hide MountedTo, Read32;
      ghost var content := files[inode].content;
      NodeFacts(mem, rootNodes, files, location, inode);
      var h := fileHeaders + 76 * inode;
      var start, length := Read32(mem, h + 68), Read32(mem, h + 72);
      ClipIsRight(content, offset, size);
      if offset > length {
        return 0;
      }
      n := if (offset + size) % LIMIT > length then length - offset else size;
      assert n == Clip(length, offset, size);
      hide Clip, ReadOf;
      CopyFile(start, offset, n, content, buffer);
      ReadOfIs(content, offset, size);
    }

    /** Reading a whole file at once, as the shell does. */
    method ReadWhole(inode: nat) returns (data: seq<byte>)
      requires Mounted() && inode < |files|
      ensures data == files[inode].content
    {
      hide MountedTo;
      NodeLength(inode);
      var length := rootNodes[inode].length;
      var buffer := new byte[length];
      var n := Read(inode, 0, length, buffer);
      data := buffer[..n];
    }

    /** memcpy of n bytes of a file, from offset on. */
    method CopyFile(start: nat, offset: nat, n: nat, ghost content: seq<byte>, buffer: array<byte>)
      requires HasSlice(mem, start, content) && offset + n <= |content| && n <= buffer.Length
      modifies buffer
      ensures buffer[..n] == content[offset..offset + n] && buffer[n..] == old(buffer[n..])
    {
      SubSlice(mem, start, content, offset, content[offset..offset + n], start + offset);
      CopyBytes(start + offset, n, buffer);
    }

    /** memcpy from memory into the buffer. */
    method CopyBytes(a: nat, n: nat, buffer: array<byte>)
      requires a + n <= |mem| && n <= buffer.Length
      modifies buffer
      ensures buffer[..n] == mem[a..a + n] && buffer[n..] == old(buffer[n..])
    {
      var i := 0;
      while i < n
        invariant 0 <= i <= n && forall k :: 0 <= k < i ==> buffer[k] == mem[a + k]
        invariant buffer[n..] == old(buffer[n..])
      {
        buffer[i] := mem[a + i];
        i := i + 1;
      }
    }

    /** initrd_readdir. */
    method Readdir(node: Ref, index: nat) returns (d: Option<Dirent>)
      requires Mounted() && index < LIMIT
      ensures d == ReaddirOf(Names(files), node, index)
    {
      hide FileAt, FileName, Read32;
      if node == Root && index == 0 {
        return Some(Dirent(DEV, 0));
      }
      OneLess(index);
      if node == Root && (index + LIMIT - 1) % LIMIT < |rootNodes| {
        return Some(Dirent(rootNodes[index - 1].name, rootNodes[index - 1].inode));
      }
      return None;
    }

    /** initrd_finddir. */
    method Finddir(node: Ref, name: seq<byte>) returns (r: Option<Ref>)
      requires Mounted()
      ensures r == FinddirOf(Names(files), node, name)
    {
      if node == Root && name == DEV {
        return Some(Dev);
      }
      var i := 0;
      while i < |rootNodes|
        invariant 0 <= i <= |rootNodes| && Find(Names(files), name, i) == Find(Names(files), name, 0)
      {
        if name == rootNodes[i].name {
          return Some(Entry(i));
        }
        i := i + 1;
      }
      return None;
    }
  }

  // ---------------------------------------------------------------- writer and reader agree

  /** No entry listed before has the name of file i, and "dev" is another one. */
  predicate FirstOfItsName(names: seq<seq<byte>>, i: nat)
    requires i < |names|
  {
    names[i] != DEV && forall j :: 0 <= j < i ==> names[j] != names[i]
  }

  /** Looking up the name of file i finds that file exactly if the name is not "dev" and no
      file in front has it. Names are compared as the image holds them, cut to 63 bytes. */
  lemma FoundByName(names: seq<seq<byte>>, i: nat)
    requires i < |names|
    ensures FinddirOf(names, Root, names[i]) == Some(Entry(i)) <==> FirstOfItsName(names, i)
  {
  }

  /** Only the root lists anything, dev and then as many entries as there are files. */
  lemma ListingEnds(names: seq<seq<byte>>, node: Ref, index: nat)
    ensures ReaddirOf(names, node, index).Some? <==> node == Root && index <= |names|
  {
  }

  lemma InFront(names: seq<seq<byte>>, i: nat, j: nat)
    ensures j < i <= |names| ==> names[j] in names[..i]
  {
    assert i <= |names| ==> forall k :: 0 <= k < i ==> names[..i][k] == names[k];
  }

  /** A lookup gives the directory for "dev" in the root, else the first file of that name, and
      nothing exactly if there is none. */
  lemma LookupMeans(names: seq<seq<byte>>, node: Ref, name: seq<byte>)
    ensures FinddirOf(names, node, name) == Some(Dev) <==> node == Root && name == DEV
    ensures forall i: nat :: FinddirOf(names, node, name) == Some(Entry(i)) <==>
      !(node == Root && name == DEV) && i < |names| && names[i] == name && name !in names[..i]
    ensures FinddirOf(names, node, name) == None <==> !(node == Root && name == DEV) && name !in names
    ensures FinddirOf(names, node, name) != Some(Root)
  {
    var j := Find(names, name, 0);
    assert name !in names[..j];
    forall i: nat | i < |names| && names[i] == name && name !in names[..i] ensures i == j {
      InFront(names, i, j);
    }
    assert name in names ==> j < |names|;
  }

  /** Every name that a listing of the root gives is found there; what is found is the listed
      file, or the directory for "dev", exactly if no entry listed before has the name. */
  lemma ListedIsFound(names: seq<seq<byte>>, index: nat)
    requires index <= |names|
    ensures var d := ReaddirOf(names, Root, index);
      && d.Some? && FinddirOf(names, Root, d.value.name).Some?
      && (FinddirOf(names, Root, d.value.name) == Some(if index == 0 then Dev else Entry(d.value.inode)) <==>
          forall k :: 0 <= k < index ==> ReaddirOf(names, Root, k).value.name != d.value.name)
  {
    if index > 0 {
      var i := index - 1;
      FoundByName(names, i);
      assert ReaddirOf(names, Root, 0).value.name == DEV;
      if FinddirOf(names, Root, names[i]) == Some(Entry(i)) {
        forall k | 0 <= k < index ensures ReaddirOf(names, Root, k).value.name != names[i] {
        }
      } else if names[i] != DEV {
        var j :| 0 <= j < i && names[j] == names[i];
        assert ReaddirOf(names, Root, j + 1).value.name == names[i];
      }
    }
  }

  /** Reading on from where the last read ended. */
  function ReadAll(content: seq<byte>, offset: nat, sizes: seq<nat>): seq<byte>
    decreases |sizes|
  {
    if sizes == [] then []
    else
      var chunk := ReadOf(content, offset, sizes[0]);
      chunk + ReadAll(content, offset + |chunk|, sizes[1..])
  }

  function Sum(sizes: seq<nat>): nat {
    if sizes == [] then 0 else sizes[0] + Sum(sizes[1..])
  }

  lemma ReadNothing(content: seq<byte>, offset: nat)
    ensures ReadOf(content, offset, 0) == []
  {
  }

  lemma JoinReads(content: seq<byte>, offset: nat, a: nat, b: nat)
    requires offset <= |content|
    ensures ReadOf(content, offset, a) + ReadOf(content, offset + |ReadOf(content, offset, a)|, b) == ReadOf(content, offset, a + b)
  {
  }

  lemma ReadAllSteps(content: seq<byte>, offset: nat, sizes: seq<nat>)
    ensures sizes == [] ==> ReadAll(content, offset, sizes) == []
    ensures sizes != [] ==>
      var chunk := ReadOf(content, offset, sizes[0]);
      ReadAll(content, offset, sizes) == chunk + ReadAll(content, offset + |chunk|, sizes[1..])
  {
  }

  /** Consecutive reads of whatever sizes put together are one stretch of the content, all of
      the rest if the sizes add up to that. */
  lemma {:induction false} ChunksAddUp(content: seq<byte>, offset: nat, sizes: seq<nat>)
    requires offset <= |content|
    ensures ReadAll(content, offset, sizes) == ReadOf(content, offset, Sum(sizes))
    decreases |sizes|
  {
    hide ReadOf, ReadAll;
    ReadNothing(content, offset);
    ReadAllSteps(content, offset, sizes);
    if sizes != [] {
      var chunk := ReadOf(content, offset, sizes[0]);
      JoinReads(content, offset, sizes[0], Sum(sizes[1..]));
      ChunksAddUp(content, offset + |chunk|, sizes[1..]);
    }
  }

  lemma MiddlePart(a: seq<byte>, b: seq<byte>, c: seq<byte>)
    ensures (a + b + c)[|a|..|a| + |b|] == b
  {
  }

  /** File i is the first whose base name, cut to 63 characters, is its own, and it is not the
      directory's. */
  ghost predicate FirstNamed(files: seq<File>, i: nat)
    requires i < |files|
  {
    Name(files[i].path) != "dev" && forall j :: 0 <= j < i ==> Name(files[j].path) != Name(files[i].path)
  }

  lemma SameSpelling(a: seq<byte>, b: seq<byte>, s: string, t: string)
    requires Spells(a, s) && Spells(b, t)
    ensures a == b <==> s == t
  {
    if a == b {
      forall k | 0 <= k < |s| ensures s[k] == t[k] {
        assert a[k] == s[k] as nat && b[k] == t[k] as nat;
      }
    }
  }

  lemma DevSpelled()
    ensures Spells(DEV, "dev")
  {
  }

  /** Different names are different bytes. */
  lemma FirstIsFirst(files: seq<File>, i: nat)
    requires Writable(files) && i < |files|
    ensures FirstOfItsName(Names(files), i) <==> FirstNamed(files, i)
  {
    hide Name, FileName, Packable, Spells;
    NameCharacters(files, i);
    DevSpelled();
    SameSpelling(FileName(files, i), DEV, Name(files[i].path), "dev");
    forall j | 0 <= j < i ensures FileName(files, j) == FileName(files, i) <==> Name(files[j].path) == Name(files[i].path) {
      NameCharacters(files, j);
      SameSpelling(FileName(files, j), FileName(files, i), Name(files[j].path), Name(files[i].path));
    }
  }

  lemma LookedUp(files: seq<File>, i: nat, name: seq<byte>)
    requires Writable(files) && i < |files| && FirstNamed(files, i) && SpellsBaseName(name, files[i].path)
    ensures FinddirOf(Names(files), Root, name) == Some(Entry(i))
  {
    hide FileName, Packable, Spells, BaseName, FinddirOf;
    NameCharacters(files, i);
    SameSpelling(name, FileName(files, i), Name(files[i].path), Name(files[i].path));
    FirstIsFirst(files, i);
    FoundByName(Names(files), i);
  }

  /** The round trip: pack the files, load the image anywhere, look a file up by the characters
      of its name and read it. */
  method ReadBack(files: seq<File>, before: seq<byte>, after: seq<byte>, i: nat, name: seq<byte>) returns (data: seq<byte>)
    requires Writable(files) && NulFree(files) && i < |files| && FirstNamed(files, i)
    requires SpellsBaseName(name, files[i].path)
    requires |before| + |ImageOf(files)| + |after| < LIMIT
    ensures data == files[i].content
  {
    hide ImageOf, FileName, Packable, MountedTo, ReadOf, Spells, Name, BaseName;
    var packed := MakeImage(files);
    var image := packed.value;
    var disk := new Ramdisk(before + image + after);
    MiddlePart(before, image, after);
    disk.Initialise(|before|, files);
    LookedUp(files, i, name);
    var node := disk.Finddir(Root, name);
    data := disk.ReadWhole(node.value.i);
  }

  /** The listing of the root: dev, then every file with its number. */
  method ListAll(disk: Ramdisk) returns (entries: seq<Dirent>)
    requires disk.Mounted()
    ensures |entries| == 1 + |disk.files| && entries[0] == Dirent(DEV, 0)
    ensures Writable(disk.files) && forall i :: 0 <= i < |disk.files| ==> entries[i + 1] == Dirent(FileName(disk.files, i), i)
  {
    hide Packable, FileName, FileAt, Read32;
    FewFiles(disk.mem, disk.rootNodes, disk.files, disk.location);
    entries := [];
    var i := 0;
    var node := disk.Readdir(Root, i);
    while node.Some?
      invariant 0 <= i <= |disk.files| + 1 && |entries| == i && node == ReaddirOf(Names(disk.files), Root, i)
      invariant forall k :: 0 <= k < i ==> Some(entries[k]) == ReaddirOf(Names(disk.files), Root, k)
      decreases |disk.files| + 1 - i
    {
      entries := entries + [node.value];
      i := i + 1;
      node := disk.Readdir(Root, i);
    }
    forall k | 0 <= k < |disk.files| ensures entries[k + 1] == Dirent(FileName(disk.files, k), k) {
      assert Some(entries[k + 1]) == ReaddirOf(Names(disk.files), Root, k + 1);
    }
  }

  /** A file read in consecutive chunks, each where the last one ended. */
  method ReadChunks(disk: Ramdisk, inode: nat, sizes: seq<nat>) returns (data: seq<byte>)
    requires disk.Mounted() && inode < |disk.files|
    requires forall k :: 0 <= k < |sizes| ==> sizes[k] + |disk.files[inode].content| < LIMIT
    ensures data == ReadOf(disk.files[inode].content, 0, Sum(sizes))
  {
    hide Ramdisk.Mounted, ReadOf, ReadAll, Sum;
    data := [];
    ghost var content := disk.files[inode].content;
    var k := 0;
    ChunksAddUp(content, 0, sizes);
    while k < |sizes|
      invariant 0 <= k <= |sizes| && |data| <= |content|
      invariant data + ReadAll(content, |data|, sizes[k..]) == ReadOf(content, 0, Sum(sizes))
    {
      var buffer := new byte[sizes[k]];
      ReadAllSteps(content, |data|, sizes[k..]);
      assert sizes[k..][1..] == sizes[k + 1..];
      disk.NodeLength(inode);
      var n := disk.Read(inode, |data|, sizes[k], buffer);
      data := data + buffer[..n];
      k := k + 1;
    }
    ReadAllSteps(content, |data|, sizes[k..]);
  }
}
