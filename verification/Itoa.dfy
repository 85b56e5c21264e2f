/** itoa of src/common/stdlib.c: digits are written backwards into the caller's buffer and
    reversed in place. */
module Itoa {
  import opened Bits
  import opened Words

  // ---------------------------------------------------------------- the printed text

  function DigitChar(d: nat): char
    requires d < 36
  {
    if d < 10 then '0' + d as char else 'a' + (d - 10) as char
  }

  function DigitValue(c: char): nat {
    if '0' <= c <= '9' then (c - '0') as nat
    else if 'a' <= c <= 'z' then (c - 'a') as nat + 10
    else 0
  }

  lemma DivisionIs(v: nat, base: nat)
    requires base > 0
    ensures v == v / base * base + v % base && v / base >= 0 && 0 <= v % base < base
  {
  }

  lemma AtLeastTwice(q: nat, base: nat)
    requires base >= 2
    ensures q * base >= 2 * q
  {
  }

  lemma Smaller(v: nat, base: nat)
    requires base >= 2
    ensures 2 * (v / base) <= v && (v > 0 ==> v / base < v)
    ensures v == v / base * base + v % base
  {
    DivisionIs(v, base);
    AtLeastTwice(v / base, base);
  }

  /** The digits of v, the most significant one first. */
  function Digits(v: nat, base: nat): (r: string)
    requires 2 <= base <= 36
    ensures |r| > 0
    decreases v
  {
    if v < base then [DigitChar(v)] else Smaller(v, base); Digits(v / base, base) + [DigitChar(v % base)]
  }

  /** What itoa prints for a 32-bit value: in base 10 it is signed, in the other supported
      bases its two's complement bits, otherwise nothing. */
  function Text(value: int, base: int): string {
    if base < 2 || base > 36 then ""
    else if base == 10 && value < 0 then "-" + Digits(-value, 10)
    else Digits(value % LIMIT, base)
  }

  // ---------------------------------------------------------------- reading it back

  function ParseNat(s: string, base: nat): nat {
    if s == "" then 0 else ParseNat(s[..|s| - 1], base) * base + DigitValue(s[|s| - 1])
  }

  function Parse(s: string, base: nat): int {
    if s != "" && s[0] == '-' then 0 - ParseNat(s[1..], base) else ParseNat(s, base)
  }

  lemma ParseOne(v: nat, base: nat)
    requires v < base <= 36
    ensures ParseNat([DigitChar(v)], base) == v
  {
    assert [DigitChar(v)][..0] == "";
    assert ParseNat("", base) == 0;
  }

  lemma ParseMore(s: string, d: nat, q: nat, base: nat)
    requires d < base <= 36 && ParseNat(s, base) == q
    ensures ParseNat(s + [DigitChar(d)], base) == q * base + d
  {
    var t := s + [DigitChar(d)];
    assert t[..|t| - 1] == s && t[|t| - 1] == DigitChar(d);
  }

  lemma {:induction false} ParseDigits(v: nat, base: nat)
    requires 2 <= base <= 36
    ensures ParseNat(Digits(v, base), base) == v
    ensures Digits(v, base)[0] != '-'
    ensures Digits(v, base)[0] == '0' ==> v == 0 && Digits(v, base) == "0"
    decreases v
  {
    if v < base {
      ParseOne(v, base);
    } else {
      Smaller(v, base);
      ParseDigits(v / base, base);
      ParseMore(Digits(v / base, base), v % base, v / base, base);
      hide ParseNat;
    }
  }

  lemma NegativeRoundTrip(v: nat)
    requires v > 0
    ensures Parse(['-'] + Digits(v, 10), 10) == 0 - v && (['-'] + Digits(v, 10))[1] != '0'
  {
    hide Digits, ParseNat;
    ParseDigits(v, 10);
    assert (['-'] + Digits(v, 10))[1..] == Digits(v, 10);
  }

  /** The bits of a 32-bit value as an unsigned number. */
  lemma Unsigned(value: int)
    requires -0x8000_0000 <= value < 0x8000_0000
    ensures value % LIMIT == (if value < 0 then value + 0x1_0000_0000 else value) && value % LIMIT >= 0
  {
    assert value % 0x1_0000_0000 == (if value < 0 then value + 0x1_0000_0000 else value);
  }

  lemma TextParts(value: int, base: int)
    requires -0x8000_0000 <= value < 0x8000_0000 && 2 <= base <= 36
    ensures value % LIMIT >= 0
    ensures Text(value, base) ==
      if value < 0 && base == 10 then ['-'] + Digits(-value, base) else Digits(value % LIMIT, base)
  {
  }

  lemma ZeroText(base: int)
    requires 2 <= base <= 36
    ensures Text(0, base) == "0"
  {
  }

  /** The digits are 0 to 9 and then the small letters. */
  lemma DigitsInOrder(d: nat)
    requires d < 36
    ensures DigitChar(d) == "0123456789abcdefghijklmnopqrstuvwxyz"[d]
  {
  }

  /** Parsing the text gives the value back: with its sign in base 10, down to the least
      32-bit integer, and modulo 2^32 in the other bases. No text has leading zeros. */
  lemma TextRoundTrip(value: int, base: int)
    requires -0x8000_0000 <= value < 0x8000_0000 && 2 <= base <= 36
    ensures Parse(Text(value, base), base) == if base == 10 then value else value % LIMIT
    ensures value != 0 && base != 10 ==> Text(value, base)[0] != '0'
    ensures base == 10 ==> (Text(value, base)[0] == '-' <==> value < 0)
    ensures base == 10 && value != 0 ==> Text(value, base)[if value < 0 then 1 else 0] != '0'
    ensures value == 0 ==> Text(value, base) == "0"
  {
    hide Digits, ParseNat, Text;
    TextParts(value, base);
    if base == 10 && value < 0 {
      NegativeRoundTrip(-value);
    } else {
      Unsigned(value);
      ParseDigits(value % LIMIT, base);
      ZeroText(base);
    }
  }

  lemma {:induction false} DigitsShort(v: nat, base: nat, k: nat)
    requires 2 <= base <= 36 && k > 0 && v < Pow2(k)
    ensures |Digits(v, base)| <= k
    decreases k
  {
    if v >= base {
      Smaller(v, base);
      assert k > 1 by { assert Pow2(1) == 2; }
      DigitsShort(v / base, base, k - 1);
    }
  }

  function Pow10(k: nat): nat {
    if k == 0 then 1 else 10 * Pow10(k - 1)
  }

  lemma {:induction false} DecimalShort(v: nat, k: nat)
    requires k > 0 && v < Pow10(k)
    ensures |Digits(v, 10)| <= k
    decreases k
  {
    if v >= 10 {
      assert k > 1 by { assert Pow10(1) == 10; }
      DecimalShort(v / 10, k - 1);
    }
  }

  lemma PowersOf32()
    ensures Pow2(32) == 0x1_0000_0000 && Pow10(10) == 10_000_000_000
  {
    assert Pow2(8) == 256;
    assert Pow2(16) == 256 * Pow2(8);
    assert Pow2(24) == 256 * Pow2(16);
    assert Pow2(32) == 256 * Pow2(24);
    assert Pow10(5) == 100_000;
    assert Pow10(10) == 100_000 * Pow10(5);
  }

  /** With its terminator the text takes at most 33 bytes, and 12 in base 10. */
  lemma TextIsShort(value: int, base: int)
    requires -0x8000_0000 <= value < 0x8000_0000
    ensures |Text(value, base)| + 1 <= 33
    ensures base == 10 ==> |Text(value, base)| + 1 <= 12
    ensures Text(value, base) == "" <==> base < 2 || base > 36
  {
    if 2 <= base <= 36 {
      PowersOf32();
      if base == 10 {
        DecimalShort(if value < 0 then -value else value, 10);
      } else {
        DigitsShort(value % LIMIT, base, 32);
      }
    }
  }

  // ---------------------------------------------------------------- backwards

  /** The digits of v > 0, the least significant one first. */
  function Backwards(v: nat, base: nat): string
    requires 2 <= base <= 36
    decreases v
  {
    if v == 0 then "" else Smaller(v, base); [DigitChar(v % base)] + Backwards(v / base, base)
  }

  function Reversed(s: string): (r: string)
    ensures |r| == |s| && forall i :: 0 <= i < |s| ==> r[i] == s[|s| - 1 - i]
  {
    if s == "" then "" else Reversed(s[1..]) + [s[0]]
  }

  lemma BackwardsStep(v: nat, base: nat)
    requires 2 <= base <= 36 && v > 0
    ensures v / base < v && Backwards(v, base) == [DigitChar(v % base)] + Backwards(v / base, base)
  {
    Smaller(v, base);
  }

  lemma SmallQuotient(v: nat, base: nat)
    requires v < base
    ensures v / base == 0 && v % base == v
  {
  }

  /** Digits, and what remains, of one division by the base. */
  lemma OneDigit(v: nat, base: nat)
    requires 2 <= base <= 36 && v > 0
    ensures v / base == 0 <==> v < base
    ensures v < base ==> v % base == v && Digits(v, base) == [DigitChar(v % base)] && Backwards(v / base, base) == ""
    ensures v >= base ==> Digits(v, base) == Digits(v / base, base) + [DigitChar(v % base)]
  {
    Smaller(v, base);
    if v < base {
      SmallQuotient(v, base);
    }
  }

  lemma ReversedCons(c: char, s: string)
    ensures Reversed([c] + s) == Reversed(s) + [c]
  {
    assert ([c] + s)[1..] == s;
  }

  lemma {:induction false} BackwardsReversed(v: nat, base: nat)
    requires 2 <= base <= 36 && v > 0
    ensures Reversed(Backwards(v, base)) == Digits(v, base)
    decreases v
  {
    hide DigitChar;
    BackwardsStep(v, base);
    OneDigit(v, base);
    var q, c := v / base, DigitChar(v % base);
    var rest := Backwards(q, base);
    ReversedCons(c, rest);
    if v >= base {
      BackwardsReversed(q, base);
    }
  }

  // ---------------------------------------------------------------- the code

  lemma ZeroDigit(base: nat)
    requires 2 <= base <= 36
    ensures Digits(0, base) == "0" == Reversed("0")
  {
  }

  method CharOf(v: nat, base: nat) returns (c: char)
    requires 2 <= base <= 36
    ensures c == DigitChar(v % base)
  {
    var digit := v % base;
    c := if digit < 10 then digit as char + '0' else (digit - 10) as char + 'a';
  }

  lemma DigitTaken(done: string, v: nat, base: nat)
    requires 2 <= base <= 36 && v > 0
    ensures |Backwards(v, base)| > 0 && v / base < v
    ensures done + Backwards(v, base) == done + [DigitChar(v % base)] + Backwards(v / base, base)
  {
    BackwardsStep(v, base);
  }

  lemma BackwardsOfZero(base: nat)
    requires 2 <= base <= 36
    ensures Backwards(0, base) == ""
  {
  }

  /** The loop for a value other than 0. */
  method PutBackwards(value: nat, str: array<char>, base: nat, low: nat) returns (ptr: nat)
    requires 2 <= base <= 36 && low + |Backwards(value, base)| < str.Length
    modifies str
    ensures ptr == low + |Backwards(value, base)| && str[low..ptr] == Backwards(value, base)
    ensures forall i :: 0 <= i < str.Length && !(low <= i < ptr) ==> str[i] == old(str[i])
  {
    hide Backwards, DigitChar;
    var v: nat := value;
    ptr := low;
    ghost var done := "";
    while v > 0
      invariant low <= ptr <= str.Length && str[low..ptr] == done && done + Backwards(v, base) == Backwards(value, base)
      invariant forall i :: 0 <= i < str.Length && !(low <= i < ptr) ==> str[i] == old(str[i])
      decreases v
    {
      DigitTaken(done, v, base);
      assert |done + Backwards(v, base)| == |Backwards(value, base)|;
      var c := CharOf(v, base);
      str[ptr] := c;
      ptr := ptr + 1;
      done := done + [c];
      v := v / base;
      assert str[low..ptr] == done;
    }
    BackwardsOfZero(base);
    assert done + "" == done;
  }

  /** The digit loop: the digits of v, backwards, from place low on. */
  method PutDigits(value: nat, str: array<char>, base: nat, low: nat) returns (ptr: nat)
    requires 2 <= base <= 36 && low + |Digits(value, base)| < str.Length
    modifies str
    ensures ptr == low + |Digits(value, base)| && Reversed(str[low..ptr]) == Digits(value, base)
    ensures forall i :: 0 <= i < str.Length && !(low <= i < ptr) ==> str[i] == old(str[i])
  {
    hide Backwards, Digits, Reversed;
    if value == 0 {
      str[low] := '0';
      ptr := low + 1;
      ZeroDigit(base);
      assert str[low..ptr] == "0";
    } else {
      BackwardsReversed(value, base);
      ptr := PutBackwards(value, str, base, low);
    }
  }

  lemma BackToFront(was: string, now: string)
    requires |now| == |was| && forall i :: 0 <= i < |was| ==> now[i] == was[|was| - 1 - i]
    ensures now == Reversed(was)
  {
  }

  /** The reversal of the places low..end. */
  method Reverse(str: array<char>, low: nat, end: nat)
    requires low < end <= str.Length
    modifies str
    ensures str[low..end] == Reversed(old(str[low..end]))
    ensures forall i :: 0 <= i < str.Length && !(low <= i < end) ==> str[i] == old(str[i])
  {
    var lo, ptr := low, end - 1;
    while lo < ptr
      invariant low <= lo <= end && lo + ptr == low + end - 1 && lo <= ptr + 1
      invariant forall i :: 0 <= i < str.Length && !(low <= i < lo) && !(ptr < i < end) ==> str[i] == old(str[i])
      invariant forall i {:trigger old(str[i])} :: low <= i < lo ==> str[low + end - 1 - i] == old(str[i])
      invariant forall i {:trigger old(str[i])} :: ptr < i < end ==> str[low + end - 1 - i] == old(str[i])
    {
      var tmp := str[lo];
      str[lo] := str[ptr];
      lo := lo + 1;
      str[ptr] := tmp;
      ptr := ptr - 1;
    }
    ghost var was, now := old(str[low..end]), str[low..end];
    forall i | 0 <= i < |was| ensures now[i] == was[|was| - 1 - i] {
      assert was[|was| - 1 - i] == old(str[end - 1 - i]);
    }
    BackToFront(was, now);
    hide Reversed;
  }

  /** The digits and the terminator, from place low on. */
  method PrintDigits(v: nat, str: array<char>, base: nat, low: nat)
    requires 2 <= base <= 36 && low + |Digits(v, base)| < str.Length
    modifies str
    ensures var end := low + |Digits(v, base)|;
      && str[..end] == old(str[..low]) + Digits(v, base) && str[end] == '\0' && str[end + 1..] == old(str[end + 1..])
  {
    hide Digits, Reversed;
    var ptr := PutDigits(v, str, base, low);
    ghost var backwards, prefix := str[low..ptr], str[..low];
    str[ptr] := '\0';
    assert str[low..ptr] == backwards;
    Reverse(str, low, ptr);
    assert str[low..ptr] == Digits(v, base);
    assert prefix == old(str[..low]) == str[..low];
    assert str[..ptr] == str[..low] + str[low..ptr];
  }

  /** itoa: the text and its terminator, and nothing behind it is written. */
  method Print(value: int, str: array<char>, base: int)
    requires -0x8000_0000 <= value < 0x8000_0000
    requires |Text(value, base)| < str.Length
    modifies str
    ensures var n := |Text(value, base)|;
      && str[..n] == Text(value, base) && str[n] == '\0' && str[n + 1..] == old(str[n + 1..])
  {
    if base < 2 || base > 36 {
      str[0] := '\0';
      return;
    }
    hide Digits, Reversed, Text;
    TextParts(value, base);
    var ptr := 0;
    if value < 0 && base == 10 {
      str[ptr] := '-';
      ptr := ptr + 1;
    }
    var v: nat := if value < 0 && base == 10 then -value else value % LIMIT;
    assert str[..ptr] == if value < 0 && base == 10 then ['-'] else [];
    assert str[..ptr] + Digits(v, base) == Text(value, base);
    PrintDigits(v, str, base, ptr);
  }
}
