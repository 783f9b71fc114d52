/**
 * Fixed-width unsigned integers and their little-endian byte form, as Rust's
 * `to_le_bytes` produces it and as Borsh writes integers.
 */
module Bytes {

  type byte = x: int | 0 <= x < 0x100
  type u32 = x: int | 0 <= x < 0x1_0000_0000
  type u64 = x: int | 0 <= x < 0x1_0000_0000_0000_0000

  const U64_MAX: int := 0xFFFF_FFFF_FFFF_FFFF

  /** 256 to the power n: the number of values n bytes can hold. */
  function Pow256(n: nat): (p: nat)
    ensures p >= 1
  {
    if n == 0 then 1 else 256 * Pow256(n - 1)
  }

  lemma Pow256Widths()
    ensures Pow256(4) == 0x1_0000_0000
    ensures Pow256(8) == 0x1_0000_0000_0000_0000
  {
    assert Pow256(2) == 0x1_0000;
    assert Pow256(4) == 0x1_0000 * Pow256(2) by {
      assert Pow256(4) == 256 * 256 * Pow256(2);
    }
    assert Pow256(8) == 0x1_0000_0000 * Pow256(4) by {
      assert Pow256(8) == 256 * 256 * Pow256(6);
      assert Pow256(6) == 256 * 256 * Pow256(4);
    }
  }

  /**
   * The n low-order bytes of x, least significant first. For a value that
   * fits in n bytes this is Rust's `to_le_bytes` at width n.
   */
  function LittleEndian(x: nat, n: nat): (bs: seq<byte>)
    ensures |bs| == n
  {
    if n == 0 then [] else [x % 256] + LittleEndian(x / 256, n - 1)
  }

  /** The value of a little-endian byte string. */
  function FromLittleEndian(bs: seq<byte>): (x: nat)
    ensures x < Pow256(|bs|)
  {
    if bs == [] then 0
    else
      var high := FromLittleEndian(bs[1..]);
      assert high <= Pow256(|bs| - 1) - 1;
      assert 256 * high <= 256 * Pow256(|bs| - 1) - 256;
      bs[0] + 256 * high
  }

  /** Reading back the bytes written for a value that fits gives the value. */
  lemma {:induction false} LittleEndianRoundTrip(x: nat, n: nat)
    requires x < Pow256(n)
    ensures FromLittleEndian(LittleEndian(x, n)) == x
  {
    if n > 0 {
      assert x / 256 < Pow256(n - 1);
      LittleEndianRoundTrip(x / 256, n - 1);
      var bs := LittleEndian(x, n);
      assert bs[1..] == LittleEndian(x / 256, n - 1);
    }
  }

  /** Writing back the value of a byte string gives the same bytes. */
  lemma {:induction false} FromLittleEndianRoundTrip(bs: seq<byte>)
    ensures LittleEndian(FromLittleEndian(bs), |bs|) == bs
  {
    if bs != [] {
      var high := FromLittleEndian(bs[1..]);
      var x := FromLittleEndian(bs);
      assert x % 256 == bs[0] && x / 256 == high;
      FromLittleEndianRoundTrip(bs[1..]);
    }
  }

  /** `u64::to_le_bytes`. */
  function U64Bytes(x: u64): (bs: seq<byte>)
    ensures |bs| == 8
  {
    LittleEndian(x, 8)
  }

  /** `u64::from_le_bytes`. */
  function U64FromBytes(bs: seq<byte>): (x: u64)
    requires |bs| == 8
    ensures U64Bytes(x) == bs
  {
    Pow256Widths();
    FromLittleEndianRoundTrip(bs);
    FromLittleEndian(bs)
  }

  lemma U64BytesRoundTrip(x: u64)
    ensures U64FromBytes(U64Bytes(x)) == x
  {
    Pow256Widths();
    LittleEndianRoundTrip(x, 8);
  }

  /** Distinct ids give distinct seeds: `to_le_bytes` is injective. */
  lemma U64BytesInjective(x: u64, y: u64)
    ensures U64Bytes(x) == U64Bytes(y) <==> x == y
  {
    if U64Bytes(x) == U64Bytes(y) {
      U64BytesRoundTrip(x);
      U64BytesRoundTrip(y);
    }
  }

  /** `u32::to_le_bytes`. */
  function U32Bytes(x: u32): (bs: seq<byte>)
    ensures |bs| == 4
  {
    LittleEndian(x, 4)
  }

  /** `u32::from_le_bytes`. */
  function U32FromBytes(bs: seq<byte>): (x: u32)
    requires |bs| == 4
    ensures U32Bytes(x) == bs
  {
    Pow256Widths();
    FromLittleEndianRoundTrip(bs);
    FromLittleEndian(bs)
  }

  lemma U32BytesRoundTrip(x: u32)
    ensures U32FromBytes(U32Bytes(x)) == x
  {
    Pow256Widths();
    LittleEndianRoundTrip(x, 4);
  }
}
