/**
  SHA-256 as FIPS 180-4 defines it: on bit strings, one whole message at a time. Nothing here
  follows the program; the program is proved against it.
 */
module Fips180 {
  import opened Bits

  type word = bv32

  // ----- section 3.2: addition modulo 2^32 -----

  function Sum2(a: word, b: word): word {
    a + b
  }

  function Sum4(a: word, b: word, c: word, d: word): word {
    a + b + c + d
  }

  function Sum5(a: word, b: word, c: word, d: word, e: word): word {
    a + b + c + d + e
  }

  // ----- section 4.1.2: functions -----

  function Ch(x: word, y: word, z: word): word {
    (x & y) ^ (!x & z)
  }

  function Maj(x: word, y: word, z: word): word {
    (x & y) ^ (x & z) ^ (y & z)
  }

  function BigSigma0(x: word): word {
    x.RotateRight(2) ^ x.RotateRight(13) ^ x.RotateRight(22)
  }

  function BigSigma1(x: word): word {
    x.RotateRight(6) ^ x.RotateRight(11) ^ x.RotateRight(25)
  }

  function SmallSigma0(x: word): word {
    x.RotateRight(7) ^ x.RotateRight(18) ^ (x >> 3)
  }

  function SmallSigma1(x: word): word {
    x.RotateRight(17) ^ x.RotateRight(19) ^ (x >> 10)
  }

  // ----- sections 4.2.2 and 5.3.3: constants -----

  const K_0: seq<word> := [
    0x428a2f98, 0x71374491, 0xb5c0fbcf, 0xe9b5dba5, 0x3956c25b, 0x59f111f1, 0x923f82a4, 0xab1c5ed5,
    0xd807aa98, 0x12835b01, 0x243185be, 0x550c7dc3, 0x72be5d74, 0x80deb1fe, 0x9bdc06a7, 0xc19bf174]
  const K_1: seq<word> := [
    0xe49b69c1, 0xefbe4786, 0x0fc19dc6, 0x240ca1cc, 0x2de92c6f, 0x4a7484aa, 0x5cb0a9dc, 0x76f988da,
    0x983e5152, 0xa831c66d, 0xb00327c8, 0xbf597fc7, 0xc6e00bf3, 0xd5a79147, 0x06ca6351, 0x14292967]
  const K_2: seq<word> := [
    0x27b70a85, 0x2e1b2138, 0x4d2c6dfc, 0x53380d13, 0x650a7354, 0x766a0abb, 0x81c2c92e, 0x92722c85,
    0xa2bfe8a1, 0xa81a664b, 0xc24b8b70, 0xc76c51a3, 0xd192e819, 0xd6990624, 0xf40e3585, 0x106aa070]
  const K_3: seq<word> := [
    0x19a4c116, 0x1e376c08, 0x2748774c, 0x34b0bcb5, 0x391c0cb3, 0x4ed8aa4a, 0x5b9cca4f, 0x682e6ff3,
    0x748f82ee, 0x78a5636f, 0x84c87814, 0x8cc70208, 0x90befffa, 0xa4506ceb, 0xbef9a3f7, 0xc67178f2]
  const K: seq<word> := K_0 + K_1 + K_2 + K_3
  const H0: seq<word> := [
    0x6a09e667, 0xbb67ae85, 0x3c6ef372, 0xa54ff53a, 0x510e527f, 0x9b05688c, 0x1f83d9ab, 0x5be0cd19]

  // ----- section 5.1.1: padding -----

  /** The number of zero bits after the one bit, for a message of l bits. */
  function ZeroFill(l: nat): nat {
    (447 - l) % 512
  }

  const LENGTH_WIDTH: nat := 64

  /** What is appended to a message of l bits. */
  function Padding(l: nat): (r: seq<bool>)
    ensures |r| == 1 + ZeroFill(l) + LENGTH_WIDTH
  {
    [true] + Zeros(ZeroFill(l)) + NatBits(l, LENGTH_WIDTH)
  }

  function Pad(m: seq<bool>): seq<bool> {
    m + Padding(|m|)
  }

  /** ZeroFill is the least solution of l + 1 + k = 448 (mod 512), as the section asks. */
  lemma ZeroFillIsLeast(l: nat, k: nat)
    ensures (l + 1 + ZeroFill(l)) % 512 == 448
    ensures (l + 1 + k) % 512 == 448 ==> ZeroFill(l) <= k
  {
  }

  lemma PadLength(m: seq<bool>)
    ensures |Pad(m)| % 512 == 0
  {
    hide Padding;
    ZeroFillIsLeast(|m|, 0);
  }

  // ----- section 5.2.1: parsing -----

  function BigEndian(b0: byte, b1: byte, b2: byte, b3: byte): word {
    ((b0 as word) << 24) | ((b1 as word) << 16) | ((b2 as word) << 8) | (b3 as word)
  }

  function ByteWords(bs: seq<byte>): (r: seq<word>)
    ensures |r| == |bs| / 4
  {
    if |bs| < 4 then [] else [BigEndian(bs[0], bs[1], bs[2], bs[3])] + ByteWords(bs[4..])
  }

  /** The 32-bit words of a bit string. */
  function Words(s: seq<bool>): (r: seq<word>)
    ensures |r| == |s| / 32
  {
    ByteWords(ToBytes(s))
  }

  // ----- section 6.2.2: computation -----

  /** The t-th word of the message schedule of a block. */
  function W(block: seq<word>, t: nat): word
    requires |block| == 16
  {
    if t < 16 then block[t]
    else Sum4(SmallSigma1(W(block, t - 2)), W(block, t - 7), SmallSigma0(W(block, t - 15)), W(block, t - 16))
  }

  datatype Vars = Vars(a: word, b: word, c: word, d: word, e: word, f: word, g: word, h: word)

  function Round(v: Vars, k: word, w: word): Vars {
    var t1 := Sum5(v.h, BigSigma1(v.e), Ch(v.e, v.f, v.g), k, w);
    var t2 := Sum2(BigSigma0(v.a), Maj(v.a, v.b, v.c));
    Vars(Sum2(t1, t2), v.a, v.b, v.c, Sum2(v.d, t1), v.e, v.f, v.g)
  }

  /** The working variables after the first n rounds. */
  function Rounds(v: Vars, block: seq<word>, n: nat): Vars
    requires |block| == 16 && n <= 64
  {
    if n == 0 then v else Round(Rounds(v, block, n - 1), K[n - 1], W(block, n - 1))
  }

  type hashvalue = h: seq<word> | |h| == 8 witness H0

  function VarsOf(h: hashvalue): Vars {
    Vars(h[0], h[1], h[2], h[3], h[4], h[5], h[6], h[7])
  }

  function AddVars(h: hashvalue, v: Vars): hashvalue {
    [Sum2(h[0], v.a), Sum2(h[1], v.b), Sum2(h[2], v.c), Sum2(h[3], v.d),
     Sum2(h[4], v.e), Sum2(h[5], v.f), Sum2(h[6], v.g), Sum2(h[7], v.h)]
  }

  function Compress(h: hashvalue, block: seq<word>): hashvalue
    requires |block| == 16
  {
    AddVars(h, Rounds(VarsOf(h), block, |K|))
  }

  /** The hash value after every 512-bit block of s. */
  function Fold(h: hashvalue, s: seq<bool>): hashvalue
    decreases s
  {
    if |s| < 512 then h else Fold(Compress(h, Words(s[..512])), s[512..])
  }

  /** The bit lengths for which the standard defines a hash. */
  predicate Hashable(m: seq<bool>) {
    |m| < 0x1_0000_0000_0000_0000
  }

  function Hash(m: seq<bool>): hashvalue {
    Fold(H0, Pad(m))
  }

  /** d is the 256-bit message digest of m: it parses to the eight words of the hash value. */
  predicate IsDigest(d: seq<bool>, m: seq<bool>) {
    Hashable(m) && |d| == 256 && Words(d) == Hash(m)
  }
}
