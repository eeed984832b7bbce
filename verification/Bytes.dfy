/** Options, octets, fixed-width identifiers and big-endian integers shared by every wire format. */
module Bytes {

  datatype Option<+T> = None | Some(value: T)

  type byte = x: int | 0 <= x < 256

  type bytes = seq<byte>

  /** A 128-bit transaction identifier. */
  type TransactionId = s: bytes | |s| == 16 witness seq(16, _ => 0)

  /** The number of values that fit in `width` octets. */
  function Capacity(width: nat): (c: nat)
    ensures c > 0
  {
    if width == 0 then 1 else 256 * Capacity(width - 1)
  }

  const U64_CAPACITY: nat := 0x1_0000_0000_0000_0000

  type u64 = n: nat | n < 0x1_0000_0000_0000_0000

  function ToBigEndian(n: nat, width: nat): (s: bytes)
    ensures |s| == width
  {
    if width == 0 then [] else ToBigEndian(n / 256, width - 1) + [n % 256]
  }

  function FromBigEndian(s: bytes): nat {
    if s == [] then 0 else 256 * FromBigEndian(s[..|s| - 1]) + s[|s| - 1]
  }

  lemma {:induction false} BigEndianBounded(s: bytes)
    ensures FromBigEndian(s) < Capacity(|s|)
  {
    if s != [] {
      BigEndianBounded(s[..|s| - 1]);
    }
  }

  lemma {:induction false} BigEndianDecodesEncoding(n: nat, width: nat)
    requires n < Capacity(width)
    ensures FromBigEndian(ToBigEndian(n, width)) == n
  {
    if width > 0 {
      var high := ToBigEndian(n / 256, width - 1);
      assert (high + [n % 256])[..width - 1] == high;
      BigEndianDecodesEncoding(n / 256, width - 1);
    }
  }

  lemma {:induction false} BigEndianEncodesDecoding(s: bytes)
    ensures ToBigEndian(FromBigEndian(s), |s|) == s
  {
    if s != [] {
      var high := s[..|s| - 1];
      BigEndianEncodesDecoding(high);
      assert high + [s[|s| - 1]] == s;
    }
  }

  lemma U64IsEightOctets()
    ensures Capacity(8) == U64_CAPACITY
  {}
}
