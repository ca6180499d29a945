/** Option values and the byte-level vocabulary shared by every codec of the model. */
module Bytes {

  datatype Option<+T> = None | Some(value: T)

  type byte = b: int | 0 <= b < 0x100
  type uint32 = x: int | 0 <= x < 0x1_0000_0000
  type uint64 = x: int | 0 <= x < 0x1_0000_0000_0000_0000

  const TWO_24 := 0x100_0000
  const TWO_32 := 0x1_0000_0000

  function Min(a: int, b: int): int {
    if a <= b then a else b
  }

  function CeilDiv(n: nat, d: nat): nat
    requires d > 0
  {
    (n + d - 1) / d
  }

  function Pow256(n: nat): (p: nat)
    ensures p > 0
  {
    if n == 0 then 1 else 256 * Pow256(n - 1)
  }

  /** The n low-order bytes of v, most significant first. */
  function BigEndian(v: nat, n: nat): (s: seq<byte>)
    ensures |s| == n
  {
    if n == 0 then [] else BigEndian(v / 256, n - 1) + [v % 256]
  }

  function FromBigEndian(s: seq<byte>): (v: nat) {
    if s == [] then 0 else FromBigEndian(s[..|s| - 1]) * 256 + s[|s| - 1]
  }

  /** The n low-order bytes of v, least significant first. */
  function LittleEndian(v: nat, n: nat): (s: seq<byte>)
    ensures |s| == n
  {
    if n == 0 then [] else [v % 256] + LittleEndian(v / 256, n - 1)
  }

  function FromLittleEndian(s: seq<byte>): (v: nat) {
    if s == [] then 0 else s[0] + 256 * FromLittleEndian(s[1..])
  }

  lemma ModSplit(v: nat, p: nat)
    requires p > 0
    ensures v % (256 * p) == (v / 256) % p * 256 + v % 256
  {
    var q, r := v / 256 / p, v / 256 % p;
    assert v / 256 == q * p + r;
    assert v == 256 * (q * p + r) + v % 256;
    assert v == q * (256 * p) + (r * 256 + v % 256) by {
      assert 256 * (q * p) == q * (256 * p);
    }
    assert 0 <= r * 256 + v % 256 < 256 * p by {
      assert (r + 1) * 256 <= p * 256;
    }
    ModUnique(v, 256 * p, q, r * 256 + v % 256);
  }

  lemma Multiples(k: int, m: int)
    requires m >= 0
    ensures k >= 1 ==> k * m >= m
    ensures k <= -1 ==> k * m <= -m
  {
    if k >= 1 {
      assert (k - 1) * m >= 0;
    } else if k <= -1 {
      assert (-k - 1) * m >= 0;
    }
  }

  lemma ModUnique(v: nat, m: nat, q: nat, r: nat)
    requires m > 0 && r < m && v == q * m + r
    ensures v % m == r
  {
    var q', r' := v / m, v % m;
    var k := q - q';
    assert k * m == r' - r by {
      assert v == q' * m + r';
      assert (q - q') * m == q * m - q' * m;
    }
    Multiples(k, m);
  }

  /** Writing keeps exactly the value modulo the field width, and nothing else. */
  lemma {:induction false} BigEndianRoundTrip(v: nat, n: nat)
    ensures FromBigEndian(BigEndian(v, n)) == v % Pow256(n)
  {
    if n == 0 {
    } else {
      var s := BigEndian(v, n);
      assert s[..n - 1] == BigEndian(v / 256, n - 1);
      BigEndianRoundTrip(v / 256, n - 1);
      ModSplit(v, Pow256(n - 1));
    }
  }

  lemma {:induction false} LittleEndianRoundTrip(v: nat, n: nat)
    ensures FromLittleEndian(LittleEndian(v, n)) == v % Pow256(n)
  {
    if n == 0 {
    } else {
      var s := LittleEndian(v, n);
      assert s[1..] == LittleEndian(v / 256, n - 1);
      LittleEndianRoundTrip(v / 256, n - 1);
      ModSplit(v, Pow256(n - 1));
    }
  }

  /** The fields byte by byte: the first byte of a big-endian one weighs most, that of a little-endian
      one least. */
  lemma FieldBytes(v: nat)
    ensures BigEndian(v, 2) == [v / 0x100 % 0x100, v % 0x100]
    ensures BigEndian(v, 3) == [v / 0x1_0000 % 0x100, v / 0x100 % 0x100, v % 0x100]
    ensures LittleEndian(v, 4) == [v % 0x100, v / 0x100 % 0x100, v / 0x1_0000 % 0x100, v / 0x100_0000 % 0x100]
  {
    var v1, v2, v3 := v / 0x100, v / 0x1_0000, v / 0x100_0000;
    assert v1 / 0x100 == v2 && v2 / 0x100 == v3;
    assert BigEndian(v2, 1) == BigEndian(v2 / 0x100, 0) + [v2 % 0x100];
    assert BigEndian(v1, 1) == BigEndian(v1 / 0x100, 0) + [v1 % 0x100];
    assert BigEndian(v1, 2) == BigEndian(v2, 1) + [v1 % 0x100];
    assert BigEndian(v, 2) == BigEndian(v1, 1) + [v % 0x100];
    assert BigEndian(v, 3) == BigEndian(v1, 2) + [v % 0x100];
    assert LittleEndian(v3, 1) == [v3 % 0x100] + LittleEndian(v3 / 0x100, 0);
    assert LittleEndian(v2, 2) == [v2 % 0x100] + LittleEndian(v3, 1);
    assert LittleEndian(v1, 3) == [v1 % 0x100] + LittleEndian(v2, 2);
    assert LittleEndian(v, 4) == [v % 0x100] + LittleEndian(v1, 3);
  }

  /** Reading stays inside the field width. */
  lemma {:induction false} BigEndianBound(s: seq<byte>)
    ensures FromBigEndian(s) < Pow256(|s|)
  {
    if s == [] {
    } else {
      BigEndianBound(s[..|s| - 1]);
    }
  }

  lemma {:induction false} LittleEndianBound(s: seq<byte>)
    ensures FromLittleEndian(s) < Pow256(|s|)
  {
    if s == [] {
    } else {
      LittleEndianBound(s[1..]);
    }
  }

  lemma Widths()
    ensures Pow256(1) == 0x100 && Pow256(2) == 0x1_0000 && Pow256(3) == TWO_24 && Pow256(4) == TWO_32
    ensures Pow256(8) == 0x1_0000_0000_0000_0000
  {
    assert Pow256(2) == 256 * Pow256(1);
    assert Pow256(3) == 256 * Pow256(2);
    assert Pow256(4) == 256 * Pow256(3);
    assert Pow256(5) == 256 * Pow256(4);
    assert Pow256(6) == 256 * Pow256(5);
    assert Pow256(7) == 256 * Pow256(6);
    assert Pow256(8) == 256 * Pow256(7);
  }

  /** 24-bit, 32-bit and 16-bit big-endian fields, as the headers use them. */
  function Read24(s: seq<byte>): (v: uint32)
    requires |s| == 3
    ensures v < TWO_24
  {
    BigEndianBound(s);
    Widths();
    FromBigEndian(s)
  }

  function ReadLE32(s: seq<byte>): (v: uint32)
    requires |s| == 4
  {
    LittleEndianBound(s);
    Widths();
    FromLittleEndian(s)
  }

  lemma Read24OfWrite(v: uint32)
    ensures Read24(BigEndian(v, 3)) == v % TWO_24
  {
    BigEndianRoundTrip(v, 3);
    Widths();
  }

  lemma ReadLE32OfWrite(v: uint32)
    ensures ReadLE32(LittleEndian(v, 4)) == v
  {
    LittleEndianRoundTrip(v, 4);
    Widths();
  }
}
