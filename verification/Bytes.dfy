/** Fixed-width integers, octets, and the little-endian byte images that the
    persistence format and the transport framing share. */
module Bytes {
  const U8_LIMIT := 0x100
  const U16_LIMIT := 0x1_0000
  const U32_LIMIT := 0x1_0000_0000
  const U64_LIMIT := 0x1_0000_0000_0000_0000
  const U64_MAX := 0xFFFF_FFFF_FFFF_FFFF
  const I64_MAX := 0x7FFF_FFFF_FFFF_FFFF
  const I64_MIN := -0x8000_0000_0000_0000

  type byte = x: int | 0 <= x < 0x100
  type u8 = x: int | 0 <= x < 0x100
  type u16 = x: int | 0 <= x < 0x1_0000
  type u32 = x: int | 0 <= x < 0x1_0000_0000
  type u64 = x: int | 0 <= x < 0x1_0000_0000_0000_0000
  type i64 = x: int | -0x8000_0000_0000_0000 <= x < 0x8000_0000_0000_0000
  type bytes = seq<byte>

  /** The two's complement image of a signed value, as a cast to an unsigned one gives it. */
  function ToU64(v: i64): u64 {
    if v < 0 then v + U64_LIMIT else v
  }

  function ToI64(v: u64): i64 {
    if v > I64_MAX then v - U64_LIMIT else v
  }

  function Pow256(n: nat): (p: nat)
    ensures p > 0
  {
    if n == 0 then 1 else 0x100 * Pow256(n - 1)
  }

  /** The n low octets of v, least significant first. */
  function LittleEndian(v: nat, n: nat): (r: bytes)
    ensures |r| == n
  {
    if n == 0 then [] else [v % 0x100] + LittleEndian(v / 0x100, n - 1)
  }

  function FromLittleEndian(s: bytes): (v: nat)
    ensures v < Pow256(|s|)
  {
    if s == [] then 0 else s[0] + 0x100 * FromLittleEndian(s[1..])
  }

  lemma {:induction false} LittleEndianInverse(v: nat, n: nat)
    requires v < Pow256(n)
    ensures FromLittleEndian(LittleEndian(v, n)) == v
  {
    if n > 0 {
      LittleEndianInverse(v / 0x100, n - 1);
      assert LittleEndian(v, n)[1..] == LittleEndian(v / 0x100, n - 1);
    }
  }

  lemma {:induction false} FromLittleEndianInverse(s: bytes)
    ensures LittleEndian(FromLittleEndian(s), |s|) == s
  {
    if s != [] {
      FromLittleEndianInverse(s[1..]);
      assert (s[0] + 0x100 * FromLittleEndian(s[1..])) / 0x100 == FromLittleEndian(s[1..]);
      assert s == [s[0]] + s[1..];
    }
  }

  /** Octet k of v is what remains after shifting out 8 * k bits. */
  lemma {:induction false} LittleEndianAt(v: nat, n: nat, k: nat)
    requires k < n
    ensures LittleEndian(v, n)[k] == (v / Pow256(k)) % 0x100
  {
    if k > 0 {
      LittleEndianAt(v / 0x100, n - 1, k - 1);
      DivDiv(v, Pow256(k - 1));
    }
  }

  lemma DivDiv(v: nat, p: nat)
    requires p > 0
    ensures (v / 0x100) / p == v / (0x100 * p)
  {
    var q := v / (0x100 * p);
    var r := v % (0x100 * p);
    assert v == (0x100 * p) * q + r;
    assert v == 0x100 * (p * q) + r;
    assert v / 0x100 == p * q + r / 0x100;
    assert r / 0x100 < p;
    QuotientUnique(v / 0x100, p, q, r / 0x100);
  }

  lemma QuotientUnique(a: nat, p: nat, q: nat, r: nat)
    requires p > 0 && a == p * q + r && r < p
    ensures a / p == q
  {
    var d := a / p - q;
    assert p * d == r - a % p;
    assert d > 0 ==> p * d >= p;
    assert d < 0 ==> p * d <= 0 - p;
  }

  lemma PowerLimits()
    ensures Pow256(1) == U8_LIMIT && Pow256(2) == U16_LIMIT
    ensures Pow256(4) == U32_LIMIT && Pow256(8) == U64_LIMIT
  {
    assert Pow256(3) == 0x100_0000;
    assert Pow256(5) == 0x100_0000_0000;
    assert Pow256(6) == 0x1_0000_0000_0000;
    assert Pow256(7) == 0x100_0000_0000_0000;
  }

  /** The octets of a value, shifted out one by one. */
  method OctetsOf(value: nat, n: nat) returns (image: bytes)
    ensures image == LittleEndian(value, n)
  {
    image := [];
    for index := 0 to n
      invariant |image| == index
      invariant forall k :: 0 <= k < index ==> image[k] == (value / Pow256(k)) % 0x100
    {
      image := image + [(value / Pow256(index)) % 0x100];
    }
    forall k | 0 <= k < n
      ensures image[k] == LittleEndian(value, n)[k]
    {
      LittleEndianAt(value, n, k);
    }
  }

  lemma {:induction false} FromLittleEndianSnoc(s: bytes, b: byte)
    ensures FromLittleEndian(s + [b]) == FromLittleEndian(s) + b * Pow256(|s|)
  {
    if s == [] {
      assert [] + [b] == [b];
    } else {
      assert (s + [b])[1..] == s[1..] + [b];
      FromLittleEndianSnoc(s[1..], b);
      assert 0x100 * (b * Pow256(|s| - 1)) == b * Pow256(|s|);
    }
  }

  /** The value of some octets, accumulated from the least significant on. */
  method ValueOf(image: bytes) returns (value: nat)
    ensures value == FromLittleEndian(image)
  {
    value := 0;
    for index := 0 to |image|
      invariant value == FromLittleEndian(image[..index])
    {
      assert image[..index + 1] == image[..index] + [image[index]];
      FromLittleEndianSnoc(image[..index], image[index]);
      value := value + image[index] * Pow256(index);
    }
    assert image[..|image|] == image;
  }
}
