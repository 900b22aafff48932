/** Bytes and the byte orders of util.cpp. */
module Bytes {
  type Byte = b: int | 0 <= b < 256

  /** The n low bytes of a two's complement integer, least significant first, as memory holds it. */
  function Low(v: int, n: nat): (r: seq<Byte>)
    ensures |r| == n
    decreases n
  {
    if n == 0 then [] else [v % 256] + Low(v / 256, n - 1)
  }

  /** se2be_*: the bytes of memory in the other order. */
  function Reversed(s: seq<Byte>): (r: seq<Byte>)
    ensures |r| == |s|
  {
    if s == [] then [] else Reversed(s[1..]) + [s[0]]
  }

  lemma {:induction false} ReversedAt(s: seq<Byte>, i: nat)
    requires i < |s|
    ensures Reversed(s)[i] == s[|s| - 1 - i]
  {
    if i < |s| - 1 { ReversedAt(s[1..], i); }
  }

  /** Big-endian encoding of the n low bytes. */
  function Be(v: int, n: nat): (r: seq<Byte>)
    ensures |r| == n
  {
    Reversed(Low(v, n))
  }

  /** The number that memory holds, least significant byte first. */
  function Value(s: seq<Byte>): nat {
    if s == [] then 0 else s[0] + 256 * Value(s[1..])
  }

  function Pow256(n: nat): (p: nat)
    ensures p > 0
  {
    if n == 0 then 1 else 256 * Pow256(n - 1)
  }

  lemma DivideMod(v: int, m: nat)
    requires m > 0
    ensures v % (256 * m) == v % 256 + 256 * (v / 256 % m)
  {
    var q, r := v / 256, v % 256;
    var a, b := q / m, q % m;
    assert v == 256 * q + r && q == m * a + b;
    assert v == (256 * m) * a + (256 * b + r) by {
      assert 256 * (m * a + b) == (256 * m) * a + 256 * b;
    }
    UniqueMod(v, 256 * m, a, 256 * b + r);
  }

  lemma UniqueMod(v: int, d: nat, a: int, r: int)
    requires d > 0 && 0 <= r < d && v == d * a + r
    ensures v % d == r
  {
    var q := v / d;
    assert v == d * q + v % d;
    var x := a - q;
    assert d * x == d * a - d * q == v % d - r;
    if x > 0 { MulAtLeast(d, x); }
    if x < 0 { MulAtLeast(d, -x); }
  }

  lemma {:induction false} MulAtLeast(d: int, x: int)
    requires d > 0 && x > 0
    ensures d * x >= d
    decreases x
  {
    if x > 1 {
      MulAtLeast(d, x - 1);
      assert d * x == d * (x - 1) + d;
    }
  }

  lemma {:induction false} ValueOfLow(v: int, n: nat)
    ensures Value(Low(v, n)) == v % Pow256(n)
    decreases n
  {
    if n > 0 {
      ValueOfLow(v / 256, n - 1);
      DivideMod(v, Pow256(n - 1));
    }
  }

  lemma ReversedTwice(s: seq<Byte>)
    ensures Reversed(Reversed(s)) == s
  {
    forall i | 0 <= i < |s| ensures Reversed(Reversed(s))[i] == s[i] {
      ReversedAt(Reversed(s), i);
      ReversedAt(s, |s| - 1 - i);
    }
  }

  /** Reading big-endian bytes into memory gives the number back, modulo the width. */
  lemma BeRoundTrip(v: int, n: nat)
    ensures Value(Reversed(Be(v, n))) == v % Pow256(n)
  {
    ReversedTwice(Low(v, n));
    ValueOfLow(v, n);
  }

  lemma Widths()
    ensures Pow256(1) == 0x100 && Pow256(2) == 0x1_0000 && Pow256(3) == 0x100_0000 && Pow256(4) == 0x1_0000_0000
  {
    assert Pow256(1) == 256 * Pow256(0);
    assert Pow256(2) == 256 * Pow256(1);
    assert Pow256(3) == 256 * Pow256(2);
    assert Pow256(4) == 256 * Pow256(3);
  }

  /** And the other way around: the bytes come back from the number. */
  lemma {:induction false} LowOfValue(s: seq<Byte>)
    ensures Low(Value(s), |s|) == s
  {
    if s != [] {
      LowOfValue(s[1..]);
      assert (s[0] + 256 * Value(s[1..])) % 256 == s[0] && (s[0] + 256 * Value(s[1..])) / 256 == Value(s[1..]);
    }
  }

  lemma BeOfValue(s: seq<Byte>)
    ensures Be(Value(Reversed(s)), |s|) == s
  {
    LowOfValue(Reversed(s));
    ReversedTwice(s);
  }

  /** An int16_t assigned from a size or any other integer. */
  function Wrap16(n: int): (r: int)
    ensures -0x8000 <= r < 0x8000 && (0 <= n < 0x8000 ==> r == n)
  {
    (n + 0x8000) % 0x1_0000 - 0x8000
  }

  /** A byte as char, where that is signed. */
  function Int8(b: Byte): int {
    if b >= 0x80 then b - 0x100 else b
  }

  /** Four bytes as int32_t. */
  function Int32(n: nat): int {
    if n >= 0x8000_0000 then n - 0x1_0000_0000 else n
  }

  /** An int32_t after an addition that may have left its range. */
  function Wrap32(n: int): (r: int)
    ensures -0x8000_0000 <= r < 0x8000_0000 && (r - n) % 0x1_0000_0000 == 0
  {
    (n + 0x8000_0000) % 0x1_0000_0000 - 0x8000_0000
  }

  /** The two bytes at the front of s as an unsigned big-endian number. */
  function Word(s: seq<Byte>): (n: nat)
    requires |s| >= 2
    ensures n < 0x1_0000
  {
    var high: int, low: int := s[0], s[1];
    256 * high + low
  }

  lemma BeOfTwo(n: int)
    ensures Be(n, 2) == [n / 256 % 256, n % 256]
  {
    assert Low(n / 256, 1) == [n / 256 % 256];
    assert Low(n, 2) == [n % 256, n / 256 % 256];
    ReversedAt(Low(n, 2), 0);
    ReversedAt(Low(n, 2), 1);
  }

  lemma WordOfBe(n: int, rest: seq<Byte>)
    requires 0 <= n < 0x1_0000
    ensures Word(Be(n, 2) + rest) == n
  {
    BeOfTwo(n);
  }

  lemma BeOfWord(s: seq<Byte>)
    requires |s| >= 2
    ensures Be(Word(s), 2) == s[..2]
  {
    BeOfTwo(Word(s));
  }

  lemma Regroup(a: seq<Byte>, b: seq<Byte>, d: seq<Byte>)
    ensures a + (b + d) == (a + b) + d
  {
  }
}
