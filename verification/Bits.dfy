/**
  Bit strings, and the ways the hash and the codec view bytes as bits. Both standards the
  components follow read a byte most significant bit first, so every list here is in that order.
 */
module Bits {

  type byte = bv8

  // ----- bits of a byte, of a byte string, and of a number -----

  function ByteBits(b: byte): (r: seq<bool>)
    ensures |r| == 8
  {
    [b & 0x80 != 0, b & 0x40 != 0, b & 0x20 != 0, b & 0x10 != 0,
     b & 0x08 != 0, b & 0x04 != 0, b & 0x02 != 0, b & 0x01 != 0]
  }

  function BytesBits(bs: seq<byte>): (r: seq<bool>)
    ensures |r| == 8 * |bs|
  {
    if bs == [] then [] else ByteBits(bs[0]) + BytesBits(bs[1..])
  }

  /** The w low-order bits of n. */
  function NatBits(n: nat, w: nat): (r: seq<bool>)
    ensures |r| == w
    decreases w
  {
    if w == 0 then [] else NatBits(n / 2, w - 1) + [n % 2 == 1]
  }

  function Zeros(n: nat): (r: seq<bool>)
    ensures |r| == n
    ensures forall i :: 0 <= i < n ==> !r[i]
  {
    seq(n, i => false)
  }

  // ----- bytes of a bit string -----

  function Bit(b: bool, weight: byte): byte {
    if b then weight else 0
  }

  function Pack8(s: seq<bool>): byte
    requires |s| == 8
  {
    Bit(s[0], 0x80) | Bit(s[1], 0x40) | Bit(s[2], 0x20) | Bit(s[3], 0x10)
    | Bit(s[4], 0x08) | Bit(s[5], 0x04) | Bit(s[6], 0x02) | Bit(s[7], 0x01)
  }

  /** The whole bytes of a bit string; fewer than eight bits left over are dropped. */
  function ToBytes(s: seq<bool>): (r: seq<byte>)
    ensures |r| == |s| / 8
  {
    if |s| < 8 then [] else [Pack8(s[..8])] + ToBytes(s[8..])
  }

  lemma Pack8ByteBits(b: byte)
    ensures Pack8(ByteBits(b)) == b
  {
  }

  lemma {:induction false} BytesBitsConcat(a: seq<byte>, b: seq<byte>)
    ensures BytesBits(a + b) == BytesBits(a) + BytesBits(b)
  {
    if a == [] {
      assert a + b == b;
    } else {
      assert (a + b)[1..] == a[1..] + b;
      BytesBitsConcat(a[1..], b);
    }
  }

  /** Reading the bits of a byte string back gives the bytes, whatever short tail follows. */
  lemma {:induction false} ToBytesBytesBits(bs: seq<byte>, tail: seq<bool>)
    requires |tail| < 8
    ensures ToBytes(BytesBits(bs) + tail) == bs
  {
    if bs != [] {
      var s := BytesBits(bs) + tail;
      Pack8ByteBits(bs[0]);
      assert s[..8] == ByteBits(bs[0]);
      assert s[8..] == BytesBits(bs[1..]) + tail;
      ToBytesBytesBits(bs[1..], tail);
    }
  }

  lemma Pack8Bits(s: seq<bool>)
    requires |s| == 8
    ensures ByteBits(Pack8(s)) == s
  {
  }

  /** The bits of the whole bytes of s are those of s, but for the last few that make no byte. */
  lemma {:induction false} BytesBitsToBytes(s: seq<bool>)
    ensures BytesBits(ToBytes(s)) == s[..8 * (|s| / 8)]
  {
    if |s| >= 8 {
      hide ByteBits, Pack8;
      var t := s[8..];
      Pack8Bits(s[..8]);
      BytesBitsToBytes(t);
      assert s[..8] + t[..8 * (|t| / 8)] == s[..8 * (|s| / 8)];
    }
  }

  lemma BytesBitsInjective(a: seq<byte>, b: seq<byte>)
    requires BytesBits(a) == BytesBits(b)
    ensures a == b
  {
    ToBytesBytesBits(a, []);
    ToBytesBytesBits(b, []);
    assert BytesBits(a) + [] == BytesBits(b) + [];
  }

  // ----- numbers written as bytes -----

  // The width is a parameter fixed by the precondition, so that the verifier unfolds it only
  // where a proof asks.

  lemma NatBitsNibble(n: nat, w: nat)
    requires w >= 4
    ensures NatBits(n, w) == NatBits(n / 16, w - 4) + [n / 8 % 2 == 1, n / 4 % 2 == 1, n / 2 % 2 == 1, n % 2 == 1]
  {
    assert NatBits(n, w) == NatBits(n / 2, w - 1) + [n % 2 == 1];
    assert NatBits(n / 2, w - 1) == NatBits(n / 4, w - 2) + [n / 2 % 2 == 1];
    assert NatBits(n / 4, w - 2) == NatBits(n / 8, w - 3) + [n / 4 % 2 == 1];
    assert NatBits(n / 8, w - 3) == NatBits(n / 16, w - 4) + [n / 8 % 2 == 1];
  }

  lemma NatBits8(n: nat, w: nat)
    requires w == 8
    ensures NatBits(n, w) == [n / 128 % 2 == 1, n / 64 % 2 == 1, n / 32 % 2 == 1, n / 16 % 2 == 1,
                              n / 8 % 2 == 1, n / 4 % 2 == 1, n / 2 % 2 == 1, n % 2 == 1]
  {
    var m := n / 16;
    NatBitsNibble(n, w);
    NatBitsNibble(m, w - 4);
    assert m / 8 == n / 128 && m / 4 == n / 64 && m / 2 == n / 32;
    assert NatBits(m / 16, w - 8) == [];
  }

  lemma ByteBitsOfNat(n: nat)
    requires n < 256
    ensures ByteBits(n as byte) == [n / 128 % 2 == 1, n / 64 % 2 == 1, n / 32 % 2 == 1, n / 16 % 2 == 1,
                                    n / 8 % 2 == 1, n / 4 % 2 == 1, n / 2 % 2 == 1, n % 2 == 1]
  {
  }

  lemma NatBitsByte(n: nat, w: nat)
    requires n < 256 && w == 8
    ensures NatBits(n, w) == ByteBits(n as byte)
  {
    NatBits8(n, w);
    ByteBitsOfNat(n);
  }

  /** The low w bits of a number split off its higher bits. */
  lemma {:induction false} NatBitsSplit(n: nat, hi: nat, lo: nat, v: nat, w: nat)
    requires lo < Pow2(w) && n == hi * Pow2(w) + lo
    ensures NatBits(n, v + w) == NatBits(hi, v) + NatBits(lo, w)
    decreases w
  {
    if w == 0 {
      assert n == hi;
    } else {
      assert Pow2(w) == 2 * Pow2(w - 1);
      assert n == 2 * (hi * Pow2(w - 1)) + lo;
      assert n / 2 == hi * Pow2(w - 1) + lo / 2 && n % 2 == lo % 2;
      NatBitsSplit(n / 2, hi, lo / 2, v, w - 1);
    }
  }

  function Pow2(w: nat): (r: nat)
    ensures r > 0
  {
    if w == 0 then 1 else 2 * Pow2(w - 1)
  }

  // ----- what bits stand for -----

  /** The number written by s, most significant bit first. */
  function Value(s: seq<bool>): nat {
    if s == [] then 0 else 2 * Value(s[..|s| - 1]) + if s[|s| - 1] then 1 else 0
  }

  /** NatBits writes its number. */
  lemma {:induction false} NatBitsValue(n: nat, w: nat)
    requires n < Pow2(w)
    ensures Value(NatBits(n, w)) == n
    decreases w
  {
    if w > 0 {
      var s := NatBits(n, w);
      assert s[..w - 1] == NatBits(n / 2, w - 1) && s[w - 1] == (n % 2 == 1);
      NatBitsValue(n / 2, w - 1);
    }
  }

  lemma ByteBitsValue(n: nat)
    requires n < 256
    ensures Value(ByteBits(n as byte)) == n
  {
    var eight: nat := 8;
    hide ByteBits;
    NatBitsByte(n, eight);
    assert Pow2(8) == 256;
    NatBitsValue(n, eight);
  }
}
