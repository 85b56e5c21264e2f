/** 32-bit little-endian words in byte sequences. */
module Words {

  const LIMIT: nat := 0x1_0000_0000
  const PAGE_SIZE: nat := 4096

  type byte = x: nat | x < 256

  lemma Digits(v: nat)
    requires v < LIMIT
    ensures v / 0x100_0000 < 0x100
    ensures v % 0x100 + 0x100 * (v / 0x100 % 0x100) + 0x1_0000 * (v / 0x1_0000 % 0x100) + 0x100_0000 * (v / 0x100_0000) == v
  {
    var a, b := v / 0x100, v / 0x1_0000;
    assert v == 0x100 * a + v % 0x100;
    assert a == 0x100 * (a / 0x100) + a % 0x100;
    assert a / 0x100 == b;
    assert b == 0x100 * (b / 0x100) + b % 0x100;
    assert b / 0x100 == v / 0x100_0000;
  }

  function Read32(m: seq<byte>, i: nat): (v: nat)
    requires i + 4 <= |m|
    ensures v < LIMIT
  {
    var a: nat, b: nat, c: nat, d: nat := m[i], m[i + 1], m[i + 2], m[i + 3];
    a + 0x100 * b + 0x1_0000 * c + 0x100_0000 * d
  }

  function Write32(m: seq<byte>, i: nat, v: nat): (r: seq<byte>)
    requires i + 4 <= |m| && v < LIMIT
    ensures |r| == |m| && Read32(r, i) == v
    ensures forall x :: 0 <= x < |m| && !(i <= x < i + 4) ==> r[x] == m[x]
  {
    Digits(v);
    m[i := v % 0x100][i + 1 := v / 0x100 % 0x100][i + 2 := v / 0x1_0000 % 0x100][i + 3 := v / 0x100_0000]
  }

  /** The four bytes of a word. */
  function Bytes32(v: nat): (r: seq<byte>)
    requires v < LIMIT
    ensures |r| == 4 && Read32(r, 0) == v
  {
    Digits(v);
    [v % 0x100, v / 0x100 % 0x100, v / 0x1_0000 % 0x100, v / 0x100_0000]
  }

  /** A word reads the same wherever its bytes are. */
  lemma SameWord(m: seq<byte>, i: nat, r: seq<byte>, j: nat)
    requires i + 4 <= |m| && j + 4 <= |r| && m[i..i + 4] == r[j..j + 4]
    ensures Read32(m, i) == Read32(r, j)
  {
    var a, b := m[i..i + 4], r[j..j + 4];
    assert a[0] == b[0] && a[1] == b[1] && a[2] == b[2] && a[3] == b[3];
  }
}
