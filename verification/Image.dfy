/** tools/mkinitrd.py: the ramdisk image it writes for a list of input files. */
module Image {
  import opened Options
  import opened Words

  const MAGIC: nat := 0xBF
  const MAX_NAME: nat := 63

  datatype File = File(path: string, content: seq<byte>)

  // ---------------------------------------------------------------- names

  /** filename.split('/')[-1]. */
  function BaseName(path: string): (r: string)
    ensures '/' !in r && |r| <= |path| && r == path[|path| - |r|..]
    ensures |r| < |path| ==> path[|path| - |r| - 1] == '/'
  {
    if path == "" || path[|path| - 1] == '/' then ""
    else BaseName(path[..|path| - 1]) + [path[|path| - 1]]
  }

  function Name(path: string): string {
    var name := BaseName(path);
    if |name| > MAX_NAME then name[..MAX_NAME] else name
  }

  predicate Ascii(s: string) {
    forall i :: 0 <= i < |s| ==> s[i] < 128 as char
  }

  /** name.encode('ascii'). */
  function Encoded(name: string): (r: seq<byte>)
    requires Ascii(name)
    ensures |r| == |name|
  {
    seq(|name|, i requires 0 <= i < |name| => name[i] as nat)
  }

  function Zeros(n: nat): (r: seq<byte>)
    ensures |r| == n && forall i :: 0 <= i < n ==> r[i] == 0
  {
    seq(n, _ => 0)
  }

  // ---------------------------------------------------------------- the layout

  /** struct.pack('<I64sII', ...): the name is padded with zeros. */
  function HeaderBytes(name: seq<byte>, offset: nat, length: nat): (r: seq<byte>)
    requires |name| <= MAX_NAME && offset < LIMIT && length < LIMIT
    ensures |r| == 76
  {
    Bytes32(MAGIC) + (name + Zeros(64 - |name|)) + Bytes32(offset) + Bytes32(length)
  }

  /** Where the content of file i starts. */
  function Offset(files: seq<File>, i: nat): (r: nat)
    requires i <= |files|
    ensures r >= 4 + 76 * |files|
  {
    if i == 0 then 4 + 76 * |files| else Offset(files, i - 1) + |files[i - 1].content|
  }

  /** What makes one of the packing steps fail: a name outside ASCII, or a number that does
      not fit into 32 bits. */
  predicate Packable(files: seq<File>, i: nat)
    requires i < |files|
  {
    Ascii(Name(files[i].path)) && Offset(files, i) < LIMIT && |files[i].content| < LIMIT
  }

  predicate Writable(files: seq<File>) {
    |files| < LIMIT && forall i :: 0 <= i < |files| ==> Packable(files, i)
  }

  function FileName(files: seq<File>, i: nat): (r: seq<byte>)
    requires i < |files| && Packable(files, i)
    ensures |r| <= MAX_NAME
  {
    Encoded(Name(files[i].path))
  }

  function Header(files: seq<File>, i: nat): (r: seq<byte>)
    requires i < |files| && Packable(files, i)
    ensures |r| == 76
  {
    HeaderBytes(FileName(files, i), Offset(files, i), |files[i].content|)
  }

  function Headers(files: seq<File>, n: nat): (r: seq<byte>)
    requires n <= |files| && forall i :: 0 <= i < n ==> Packable(files, i)
    ensures |r| == 76 * n
  {
    if n == 0 then [] else Headers(files, n - 1) + Header(files, n - 1)
  }

  function Contents(files: seq<File>, n: nat): (r: seq<byte>)
    requires n <= |files|
    ensures |r| == Offset(files, n) - Offset(files, 0)
  {
    if n == 0 then [] else Contents(files, n - 1) + files[n - 1].content
  }

  function ImageOf(files: seq<File>): (r: seq<byte>)
    requires Writable(files)
    ensures |r| == Offset(files, |files|)
  {
    Bytes32(|files|) + Headers(files, |files|) + Contents(files, |files|)
  }

  // ---------------------------------------------------------------- where things are

  lemma {:induction false} HeadersAt(files: seq<File>, n: nat, i: nat)
    requires i < n <= |files| && forall j :: 0 <= j < n ==> Packable(files, j)
    ensures Headers(files, n)[76 * i..76 * i + 76] == Header(files, i)
  {
    hide Header, Packable;
    var a, b := Headers(files, n - 1), Header(files, n - 1);
    assert Headers(files, n) == a + b;
    var h := 76 * i;
    if i < n - 1 {
      HeadersAt(files, n - 1, i);
      assert (a + b)[h..h + 76] == a[h..h + 76];
    } else {
      assert (a + b)[h..h + 76] == b;
    }
  }

  lemma {:induction false} OffsetGrows(files: seq<File>, i: nat, j: nat)
    requires i <= j <= |files|
    ensures Offset(files, i) <= Offset(files, j)
    ensures i < j ==> Offset(files, i) + |files[i].content| <= Offset(files, j)
  {
    if i < j {
      OffsetGrows(files, i, j - 1);
    }
  }

  lemma {:induction false} ContentsAt(files: seq<File>, n: nat, i: nat)
    requires i < n <= |files|
    ensures var a := Offset(files, i) - Offset(files, 0);
      && 0 <= a && a + |files[i].content| <= |Contents(files, n)|
      && Contents(files, n)[a..a + |files[i].content|] == files[i].content
  {
    OffsetGrows(files, 0, i);
    OffsetGrows(files, i, n);
    var a := Offset(files, i) - Offset(files, 0);
    if i < n - 1 {
      ContentsAt(files, n - 1, i);
      assert Contents(files, n)[a..a + |files[i].content|] == Contents(files, n - 1)[a..a + |files[i].content|];
    }
  }

  lemma FirstOffset(files: seq<File>)
    ensures Offset(files, 0) == 4 + 76 * |files|
  {
  }

  lemma Inside(a: seq<byte>, b: seq<byte>, c: seq<byte>, i: nat, n: nat, at: nat)
    requires i + n <= |b| && at == |a| + i
    ensures (a + b + c)[at..at + n] == b[i..i + n]
  {
  }

  lemma InsideLast(a: seq<byte>, b: seq<byte>, c: seq<byte>, i: nat, n: nat, at: nat)
    requires i + n <= |c| && at == |a| + |b| + i
    ensures (a + b + c)[at..at + n] == c[i..i + n]
  {
  }

  /** Every part of the image is where its header says. */
  lemma ImageAt(files: seq<File>, i: nat)
    requires Writable(files) && i < |files|
    ensures var m, h, a := ImageOf(files), 4 + 76 * i, Offset(files, i);
      && h + 76 <= Offset(files, 0) && a + |files[i].content| <= |m|
      && m[h..h + 76] == Header(files, i)
      && m[a..a + |files[i].content|] == files[i].content
  {
    hide Headers, Contents, Header, Offset, Packable, Bytes32;
    var count, hs, cs := Bytes32(|files|), Headers(files, |files|), Contents(files, |files|);
    var m, a, c, b := ImageOf(files), Offset(files, i), |files[i].content|, Offset(files, i) - Offset(files, 0);
    assert m == count + hs + cs;
    FirstOffset(files);
    HeadersAt(files, |files|, i);
    ContentsAt(files, |files|, i);
    Inside(count, hs, cs, 76 * i, 76, 4 + 76 * i);
    InsideLast(count, hs, cs, b, c, a);
  }

  // ---------------------------------------------------------------- the bytes

  /** The 64 bytes from a on are those of name, and zeros. */
  ghost predicate NameField(m: seq<byte>, a: nat, name: seq<byte>) {
    && a + 64 <= |m| && |name| < 64
    && forall x :: a <= x < a + 64 ==> m[x] == if x < a + |name| then name[x - a] else 0
  }

  /** The characters of s, one byte each. */
  ghost predicate Spells(name: seq<byte>, s: string) {
    |name| == |s| && forall k :: 0 <= k < |s| ==> name[k] == s[k] as nat
  }

  /** The bytes of the base name, of the first 63 if it is longer. */
  ghost predicate SpellsBaseName(name: seq<byte>, path: string) {
    var base := BaseName(path);
    Spells(name, if |base| <= 63 then base else base[..63])
  }

  /** A word, its least byte first. */
  ghost predicate WordAt(m: seq<byte>, a: nat, v: nat) {
    && a + 4 <= |m| && m[a] == v % 0x100 && m[a + 1] == v / 0x100 % 0x100
    && m[a + 2] == v / 0x1_0000 % 0x100 && m[a + 3] == v / 0x100_0000
  }

  /** A header of the file format. */
  ghost predicate HeaderAt(m: seq<byte>, h: nat, name: seq<byte>, offset: nat, length: nat) {
    && h + 76 <= |m| && WordAt(m, h, 0xBF) && NameField(m, h + 4, name)
    && WordAt(m, h + 68, offset) && WordAt(m, h + 72, length)
  }

  predicate FitsIn32Bits(files: seq<File>, i: nat)
    requires i < |files|
  {
    4 + 76 * |files| + |Contents(files, i)| < LIMIT && |files[i].content| < LIMIT
  }

  predicate AsciiInFront(base: string) {
    forall k :: 0 <= k < |base| && k < 63 ==> base[k] < 128 as char
  }

  /** Where the content of file i starts: behind all headers and the contents in front. */
  lemma {:induction false} OffsetSums(files: seq<File>, i: nat)
    requires i <= |files|
    ensures Offset(files, i) == 4 + 76 * |files| + |Contents(files, i)|
  {
    if i > 0 {
      OffsetSums(files, i - 1);
    }
  }

  /** The script fails exactly for too many files, for a file that is too long or starts too
      far behind, or for a character outside ASCII in what is packed of a base name. */
  lemma WritableMeans(files: seq<File>)
    ensures Writable(files) <==>
      && |files| < LIMIT
      && forall i :: 0 <= i < |files| ==> FitsIn32Bits(files, i) && AsciiInFront(BaseName(files[i].path))
  {
    forall i | 0 <= i < |files|
      ensures Packable(files, i) <==> FitsIn32Bits(files, i) && AsciiInFront(BaseName(files[i].path))
    {
      OffsetSums(files, i);
    }
    hide Packable, FitsIn32Bits, AsciiInFront;
  }

  lemma HeaderParts(name: seq<byte>, offset: nat, length: nat)
    requires |name| <= MAX_NAME && offset < LIMIT && length < LIMIT
    ensures HeaderAt(HeaderBytes(name, offset, length), 0, name, offset, length)
  {
    hide Read32;
    assert WordAt(Bytes32(MAGIC), 0, 0xBF) && WordAt(Bytes32(offset), 0, offset) && WordAt(Bytes32(length), 0, length);
    hide Bytes32;
  }

  /** A header reads the same wherever its bytes are. */
  lemma SameHeader(m: seq<byte>, h: nat, x: seq<byte>, name: seq<byte>, offset: nat, length: nat)
    requires h + 76 <= |m| && m[h..h + 76] == x && HeaderAt(x, 0, name, offset, length)
    ensures HeaderAt(m, h, name, offset, length)
  {
    forall k | h <= k < h + 76 ensures m[k] == x[k - h] {
      assert m[h..h + 76][k - h] == m[k];
    }
  }

  lemma CountBytes(files: seq<File>)
    requires Writable(files)
    ensures WordAt(ImageOf(files), 0, |files|)
  {
    hide Headers, Contents, Packable;
  }

  lemma NameCharacters(files: seq<File>, i: nat)
    requires Writable(files) && i < |files|
    ensures Packable(files, i) && Spells(FileName(files, i), Name(files[i].path))
  {
    assert Packable(files, i);
    hide Name, Offset;
  }

  lemma HeaderIs(files: seq<File>, i: nat)
    requires Writable(files) && i < |files|
    ensures Packable(files, i) && Offset(files, i) < LIMIT && |files[i].content| < LIMIT
    ensures Header(files, i) == HeaderBytes(FileName(files, i), Offset(files, i), |files[i].content|)
  {
    assert Packable(files, i);
  }

  /** The contents follow each other. */
  lemma Consecutive(files: seq<File>, i: nat)
    requires Writable(files) && i < |files|
    ensures Offset(files, 0) == 4 + 76 * |files|
    ensures Offset(files, i + 1) == Offset(files, i) + |files[i].content|
    ensures i + 1 == |files| ==> |ImageOf(files)| == Offset(files, i + 1)
  {
    hide Headers, Contents, Packable, Bytes32;
  }

  lemma HeaderInImage(files: seq<File>, i: nat)
    requires Writable(files) && i < |files|
    ensures Packable(files, i)
    ensures HeaderAt(ImageOf(files), 4 + 76 * i, FileName(files, i), Offset(files, i), |files[i].content|)
  {
    hide ImageOf, Header, HeaderBytes, FileName, HeaderAt, Offset, Packable;
    HeaderIs(files, i);
    HeaderParts(FileName(files, i), Offset(files, i), |files[i].content|);
    ImageAt(files, i);
    SameHeader(ImageOf(files), 4 + 76 * i, Header(files, i), FileName(files, i), Offset(files, i), |files[i].content|);
  }

  lemma ContentInImage(files: seq<File>, i: nat)
    requires Writable(files) && i < |files|
    ensures var m, o, n := ImageOf(files), Offset(files, i), |files[i].content|;
      o + n <= |m| && m[o..o + n] == files[i].content
  {
    hide ImageOf, Header, Offset, Packable;
    ImageAt(files, i);
  }

  /** What is packed of a file's path. */
  lemma NameInImage(files: seq<File>, i: nat)
    requires Writable(files) && i < |files|
    ensures Packable(files, i) && SpellsBaseName(FileName(files, i), files[i].path)
  {
    hide FileName, BaseName, Packable, Spells;
    NameCharacters(files, i);
  }

  /** The image, byte by byte. In front is the count. Each header has the magic number, the
      characters of the base name as far as there is room, the offset and the length; at the
      offset is the content. The contents follow each other behind the headers. */
  lemma ImageBytes(files: seq<File>, i: nat) returns (name: seq<byte>, o: nat)
    requires Writable(files) && i < |files|
    ensures WordAt(ImageOf(files), 0, |files|)
    ensures SpellsBaseName(name, files[i].path)
    ensures HeaderAt(ImageOf(files), 4 + 76 * i, name, o, |files[i].content|)
    ensures o + |files[i].content| <= |ImageOf(files)| && ImageOf(files)[o..o + |files[i].content|] == files[i].content
    ensures o == Offset(files, i) && (i == 0 ==> o == 4 + 76 * |files|)
    ensures o + |files[i].content| == if i + 1 == |files| then |ImageOf(files)| else Offset(files, i + 1)
  {
    hide ImageOf, SpellsBaseName, FileName, HeaderAt, WordAt, Offset, Packable;
    CountBytes(files);
    NameInImage(files, i);
    HeaderInImage(files, i);
    ContentInImage(files, i);
    Consecutive(files, i);
    name, o := FileName(files, i), Offset(files, i);
  }

  // ---------------------------------------------------------------- the script

  /** The packing of one header. */
  method PackHeader(files: seq<File>, i: nat, currentOffset: nat) returns (fileHeader: seq<byte>, ok: bool)
    requires i < |files| && currentOffset == Offset(files, i)
    ensures ok <==> Packable(files, i)
    ensures ok ==> fileHeader == Header(files, i)
  {
    hide HeaderBytes, Encoded, BaseName, Ascii, Offset;
    var length := |files[i].content|;
    var name := BaseName(files[i].path);
    if |name| > 63 {
      name := name[..63];
    }
    ok := Ascii(name) && currentOffset < LIMIT && length < LIMIT;
    fileHeader := if ok then HeaderBytes(Encoded(name), currentOffset, length) else [];
  }

  /** The first loop: the packed headers and the contents, or an error. */
  method PackHeaders(files: seq<File>) returns (fileHeaders: seq<seq<byte>>, fileContents: seq<seq<byte>>, ok: bool)
    ensures ok <==> forall i :: 0 <= i < |files| ==> Packable(files, i)
    ensures ok ==> |fileHeaders| == |fileContents| == |files|
    ensures ok ==> forall j :: 0 <= j < |files| ==> fileHeaders[j] == Header(files, j) && fileContents[j] == files[j].content
  {
    hide Packable, Header;
    var nfiles := |files|;
    var headerSize := 4 + nfiles * 76;
    var currentOffset := headerSize;
    fileHeaders, fileContents, ok := [], [], true;
    var i := 0;
    while i < nfiles
      invariant 0 <= i <= nfiles && |fileHeaders| == |fileContents| == i
      invariant currentOffset == Offset(files, i) && ok
      invariant forall j :: 0 <= j < i ==> Packable(files, j) && fileHeaders[j] == Header(files, j)
      invariant forall j :: 0 <= j < i ==> fileContents[j] == files[j].content
    {
      var fileHeader;
      fileHeader, ok := PackHeader(files, i, currentOffset);
      if !ok {
        return;
      }
      fileHeaders := fileHeaders + [fileHeader];
      fileContents := fileContents + [files[i].content];
      currentOffset := currentOffset + |files[i].content|;
      i := i + 1;
    }
  }

  /** The writes: the count, all headers, all contents. */
  method WriteParts(count: seq<byte>, files: seq<File>, fileHeaders: seq<seq<byte>>, fileContents: seq<seq<byte>>)
    returns (f: seq<byte>)
    requires forall i :: 0 <= i < |files| ==> Packable(files, i)
    requires |fileHeaders| == |fileContents| == |files|
    requires forall j :: 0 <= j < |files| ==> fileHeaders[j] == Header(files, j) && fileContents[j] == files[j].content
    ensures f == count + Headers(files, |files|) + Contents(files, |files|)
  {
    hide Packable, Header;
    f := count;
    var i := 0;
    while i < |files|
      invariant 0 <= i <= |files| && f == count + Headers(files, i)
    {
      f := f + fileHeaders[i];
      i := i + 1;
    }
    i := 0;
    while i < |files|
      invariant 0 <= i <= |files| && f == count + Headers(files, |files|) + Contents(files, i)
    {
      f := f + fileContents[i];
      i := i + 1;
    }
  }

  /** main, from the input files to the bytes written; None where Python would raise. */
  method MakeImage(files: seq<File>) returns (image: Option<seq<byte>>)
    ensures image == if Writable(files) then Some(ImageOf(files)) else None
  {
    hide Packable, Header, Headers, Contents, Bytes32;
    var nfiles := |files|;
    var fileHeaders, fileContents, ok := PackHeaders(files);
    if !ok || nfiles >= LIMIT {
      return None;
    }
    var f := WriteParts(Bytes32(nfiles), files, fileHeaders, fileContents);
    return Some(f);
  }
}
