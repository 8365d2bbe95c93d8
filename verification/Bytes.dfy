/**
 Bytes, big-endian integers and the two's-complement casts that the broker's
 file and wire formats are made of.
 */
module Bytes {

  type byte = x: int | 0 <= x < 256

  type bytes = seq<byte>

  datatype Option<+T> = None | Some(value: T)

  const TWO_8: int := 0x100
  const TWO_16: int := 0x1_0000
  const TWO_31: int := 0x8000_0000
  const TWO_32: int := 0x1_0000_0000
  const TWO_63: int := 0x8000_0000_0000_0000
  const TWO_64: int := 0x1_0000_0000_0000_0000

  type int32 = x: int | -TWO_31 <= x < TWO_31
  type int64 = x: int | -TWO_63 <= x < TWO_63

  // Go's conversions from an unsigned word to the signed word of that width.
  function Int32(u: int): (r: int32)
    ensures r % TWO_32 == u % TWO_32
  {
    if u % TWO_32 < TWO_31 then u % TWO_32 else u % TWO_32 - TWO_32
  }

  function Int64(u: int): (r: int64)
    ensures r % TWO_64 == u % TWO_64
  {
    if u % TWO_64 < TWO_63 then u % TWO_64 else u % TWO_64 - TWO_64
  }

  // How many values fit in `width` bytes.
  function Pow256(width: nat): (p: nat)
    ensures p > 0
  {
    if width == 0 then 1 else 256 * Pow256(width - 1)
  }

  // The low `width` bytes of v, most significant first.
  function BigEndian(v: nat, width: nat): (s: bytes)
    ensures |s| == width
  {
    if width == 0 then [] else BigEndian(v / 256, width - 1) + [v % 256]
  }

  function FromBigEndian(s: bytes): (v: nat)
  {
    if s == [] then 0 else FromBigEndian(s[..|s| - 1]) * 256 + s[|s| - 1]
  }

  lemma {:induction false} BigEndianRoundTrip(v: nat, width: nat)
    ensures FromBigEndian(BigEndian(v, width)) == v % Pow256(width)
  {
    if width > 0 {
      BigEndianRoundTrip(v / 256, width - 1);
      var s := BigEndian(v, width);
      assert s[..|s| - 1] == BigEndian(v / 256, width - 1);
      ModSplit(v, Pow256(width - 1));
    }
  }

  lemma {:induction false} BytesRoundTrip(s: bytes)
    ensures BigEndian(FromBigEndian(s), |s|) == s
    decreases |s|
  {
    if s != [] {
      var n := |s| - 1;
      BytesRoundTrip(s[..n]);
      assert FromBigEndian(s) / 256 == FromBigEndian(s[..n]) && FromBigEndian(s) % 256 == s[n];
      assert s == s[..n] + [s[n]];
    }
  }

  lemma ModSplit(v: nat, p: nat)
    requires p > 0
    ensures v % (256 * p) == (v / 256) % p * 256 + v % 256
  {
    var q, r := v / 256 / p, v / 256 % p;
    assert v == 256 * (q * p + r) + v % 256;
    assert v == q * (256 * p) + (r * 256 + v % 256) by {
      assert 256 * (q * p) == q * (256 * p);
    }
    assert r * 256 + v % 256 < 256 * p;
    ModUnique(v, 256 * p, q, r * 256 + v % 256);
  }

  lemma ModUnique(v: nat, d: nat, q: nat, r: nat)
    requires d > 0 && r < d && v == q * d + r
    ensures v % d == r
  {
    var e := q - v / d;
    assert v == v / d * d + v % d;
    assert e * d == v % d - r;
    if e >= 1 { MulGrows(e, d); } else if e <= -1 { MulGrows(-e, d); }
  }

  lemma MulGrows(e: nat, d: nat)
    requires e >= 1
    ensures e * d >= d
  {
  }

  lemma {:induction false} FromBigEndianBound(s: bytes)
    ensures FromBigEndian(s) < Pow256(|s|)
  {
    if s != [] { FromBigEndianBound(s[..|s| - 1]); }
  }

  lemma WidthPowers()
    ensures Pow256(1) == TWO_8 && Pow256(2) == TWO_16 && Pow256(4) == TWO_32 && Pow256(8) == TWO_64
  {
    assert Pow256(3) == 0x100_0000;
    assert Pow256(5) == 0x100_0000_0000;
    assert Pow256(6) == 0x1_0000_0000_0000;
    assert Pow256(7) == 0x100_0000_0000_0000;
  }

  // The two's-complement bytes of a signed word and back.
  function Int32Bytes(v: int32): (s: bytes)
    ensures |s| == 4
  {
    BigEndian(v % TWO_32, 4)
  }

  function Int64Bytes(v: int64): (s: bytes)
    ensures |s| == 8
  {
    BigEndian(v % TWO_64, 8)
  }

  lemma Int32RoundTrip(v: int32)
    ensures Int32(FromBigEndian(Int32Bytes(v))) == v
  {
    hide BigEndian, FromBigEndian, Pow256;
    BigEndianRoundTrip(v % TWO_32, 4);
    WidthPowers();
  }

  lemma Int64RoundTrip(v: int64)
    ensures Int64(FromBigEndian(Int64Bytes(v))) == v
  {
    hide BigEndian, FromBigEndian, Pow256;
    BigEndianRoundTrip(v % TWO_64, 8);
    WidthPowers();
  }

  lemma Uint16RoundTrip(v: nat)
    ensures FromBigEndian(BigEndian(v, 2)) == v % TWO_16
  {
    hide BigEndian, FromBigEndian, Pow256;
    BigEndianRoundTrip(v, 2);
    WidthPowers();
  }

  lemma Uint32RoundTrip(v: nat)
    ensures FromBigEndian(BigEndian(v, 4)) == v % TWO_32
  {
    hide BigEndian, FromBigEndian, Pow256;
    BigEndianRoundTrip(v, 4);
    WidthPowers();
  }

  // A slice of a suffix, as a slice of the whole.
  lemma SuffixSlice<T>(s: seq<T>, a: nat, i: nat, j: nat)
    requires a <= |s| && i <= j <= |s| - a
    ensures s[a..][i..j] == s[a + i..a + j]
    ensures s[a..][j..] == s[a + j..]
  {
  }

  lemma SliceSlice<T>(s: seq<T>, a: nat, b: nat, i: nat, j: nat)
    requires a <= b <= |s| && i <= j <= b - a
    ensures s[a..b][i..j] == s[a + i..a + j]
  {
    forall k | 0 <= k < j - i ensures s[a..b][i..j][k] == s[a + i..a + j][k] {
      assert s[a..b][i + k] == s[a + i + k];
    }
  }
}
