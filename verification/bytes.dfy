/** Fixed-width integers and their little-endian byte form (Rust's `u64::to_le_bytes`
    and `u64::from_le_bytes`). */
module Bytes {

  type byte = x: int | 0 <= x < 256

  const U64_MODULUS: int := 0x1_0000_0000_0000_0000

  /** Rust's `u64`. */
  type u64 = x: int | 0 <= x < U64_MODULUS

  function Pow256(n: nat): (r: nat)
    ensures r > 0
  {
    if n == 0 then 1 else 256 * Pow256(n - 1)
  }

  lemma Pow256Eight()
    ensures Pow256(8) == U64_MODULUS
  {
    assert Pow256(1) == 256;
    assert Pow256(2) == 65536;
    assert Pow256(4) == 4294967296 by {
      assert Pow256(3) == 16777216;
    }
    assert Pow256(8) == 18446744073709551616 by {
      assert Pow256(5) == 1099511627776;
      assert Pow256(6) == 281474976710656;
      assert Pow256(7) == 72057594037927936;
    }
  }

  /** The `n` low-order bytes of `x`, least significant first. */
  function ToLeBytes(x: nat, n: nat): (r: seq<byte>)
    ensures |r| == n
  {
    if n == 0 then [] else [x % 256] + ToLeBytes(x / 256, n - 1)
  }

  /** The number whose little-endian bytes are `bs`. */
  function FromLeBytes(bs: seq<byte>): (r: nat)
    ensures r < Pow256(|bs|)
  {
    if bs == [] then 0 else bs[0] + 256 * FromLeBytes(bs[1..])
  }

  /** Reading back the bytes of a number that fits gives the number. */
  lemma {:induction false} FromToLeBytes(x: nat, n: nat)
    requires x < Pow256(n)
    ensures FromLeBytes(ToLeBytes(x, n)) == x
  {
    if n > 0 {
      FromToLeBytes(x / 256, n - 1);
      assert ToLeBytes(x, n)[1..] == ToLeBytes(x / 256, n - 1);
    }
  }

  /** Writing out the value of a byte string gives the byte string back. */
  lemma {:induction false} ToFromLeBytes(bs: seq<byte>)
    ensures ToLeBytes(FromLeBytes(bs), |bs|) == bs
  {
    if bs != [] {
      ToFromLeBytes(bs[1..]);
      var x := FromLeBytes(bs);
      assert x % 256 == bs[0];
      assert x / 256 == FromLeBytes(bs[1..]);
    }
  }

  /** Rust's `u64::to_le_bytes`. */
  function U64ToLeBytes(x: u64): (r: seq<byte>)
    ensures |r| == 8
  {
    ToLeBytes(x, 8)
  }

  /** Rust's `u64::from_le_bytes`. */
  function U64FromLeBytes(bs: seq<byte>): u64
    requires |bs| == 8
  {
    Pow256Eight();
    FromLeBytes(bs)
  }

  /** `from_le_bytes` undoes `to_le_bytes`, and the other way round. */
  lemma U64LeRoundTrip(x: u64, bs: seq<byte>)
    requires |bs| == 8
    ensures U64FromLeBytes(U64ToLeBytes(x)) == x
    ensures U64ToLeBytes(U64FromLeBytes(bs)) == bs
  {
    Pow256Eight();
    FromToLeBytes(x, 8);
    ToFromLeBytes(bs);
  }
}
