/**
  What the sums and the six logical functions compute, by arithmetic and bit by bit, whatever
  words their definitions are made of.
 */
module Fips180Functions {
  import opened Bits
  import opened Fips180

  // ----- section 3.2: sums -----

  // Every sum is the sum of all its terms, modulo 2^32, in arithmetic that is wide enough.

  lemma Sum2IsModular(a: word, b: word)
    ensures Sum2(a, b) as bv64 == (a as bv64 + b as bv64) & 0xFFFF_FFFF
  {
  }

  lemma Sum4IsModular(a: word, b: word, c: word, d: word)
    ensures Sum4(a, b, c, d) as bv64 == (a as bv64 + b as bv64 + c as bv64 + d as bv64) & 0xFFFF_FFFF
  {
  }

  lemma Sum5IsModular(a: word, b: word, c: word, d: word, e: word)
    ensures Sum5(a, b, c, d, e) as bv64
         == (a as bv64 + b as bv64 + c as bv64 + d as bv64 + e as bv64) & 0xFFFF_FFFF
  {
  }

  // ----- section 4.1.2: functions -----

  /** m has one bit set: it names a place in a word. */
  predicate IsBit(m: word) {
    m != 0 && m & (m - 1) == 0
  }

  predicate Has(x: word, m: word) {
    x & m != 0
  }

  /** Ch chooses: where x has a one the bit of y, elsewhere the bit of z. */
  lemma ChChooses(x: word, y: word, z: word, m: word)
    requires IsBit(m)
    ensures Has(Ch(x, y, z), m) <==> (Has(x, m) && Has(y, m)) || (!Has(x, m) && Has(z, m))
  {
    assert (((x & y) ^ (!x & z)) & m != 0)
      <==> ((x & m != 0 && y & m != 0) || (!(x & m != 0) && z & m != 0));
  }

  /** Maj has a one where at least two of its arguments do. */
  lemma MajIsMajority(x: word, y: word, z: word, m: word)
    requires IsBit(m)
    ensures Has(Maj(x, y, z), m)
       <==> (Has(x, m) && Has(y, m)) || (Has(x, m) && Has(z, m)) || (Has(y, m) && Has(z, m))
  {
    assert (((x & y) ^ (x & z) ^ (y & z)) & m != 0)
      <==> ((x & m != 0 && y & m != 0) || (x & m != 0 && z & m != 0) || (y & m != 0 && z & m != 0));
  }

  predicate Odd(a: bool, b: bool, c: bool) {
    (a != b) != c
  }

  // Each bit of a sigma is the sum modulo 2 of three bits of its argument: those the named
  // numbers of places further up, round the end of the word in a rotation, off it in a shift.

  lemma BigSigma0Bit(x: word, m: word)
    requires IsBit(m)
    ensures Has(BigSigma0(x), m) == Odd(Has(x, m.RotateLeft(2)), Has(x, m.RotateLeft(13)), Has(x, m.RotateLeft(22)))
  {
    assert ((x.RotateRight(2) ^ x.RotateRight(13) ^ x.RotateRight(22)) & m != 0)
        == (((x & m.RotateLeft(2) != 0) != (x & m.RotateLeft(13) != 0)) != (x & m.RotateLeft(22) != 0));
  }

  lemma BigSigma1Bit(x: word, m: word)
    requires IsBit(m)
    ensures Has(BigSigma1(x), m) == Odd(Has(x, m.RotateLeft(6)), Has(x, m.RotateLeft(11)), Has(x, m.RotateLeft(25)))
  {
    assert ((x.RotateRight(6) ^ x.RotateRight(11) ^ x.RotateRight(25)) & m != 0)
        == (((x & m.RotateLeft(6) != 0) != (x & m.RotateLeft(11) != 0)) != (x & m.RotateLeft(25) != 0));
  }

  lemma SmallSigma0Bit(x: word, m: word)
    requires IsBit(m)
    ensures Has(SmallSigma0(x), m) == Odd(Has(x, m.RotateLeft(7)), Has(x, m.RotateLeft(18)), Has(x, m << 3))
  {
    assert ((x.RotateRight(7) ^ x.RotateRight(18) ^ (x >> 3)) & m != 0)
        == (((x & m.RotateLeft(7) != 0) != (x & m.RotateLeft(18) != 0)) != (x & (m << 3) != 0));
  }

  lemma SmallSigma1Bit(x: word, m: word)
    requires IsBit(m)
    ensures Has(SmallSigma1(x), m) == Odd(Has(x, m.RotateLeft(17)), Has(x, m.RotateLeft(19)), Has(x, m << 10))
  {
    assert ((x.RotateRight(17) ^ x.RotateRight(19) ^ (x >> 10)) & m != 0)
        == (((x & m.RotateLeft(17) != 0) != (x & m.RotateLeft(19) != 0)) != (x & (m << 10) != 0));
  }

  // ----- section 5.1.1: padding -----

  lemma Pow2Of64()
    ensures Pow2(64) == 0x1_0000_0000_0000_0000
  {
    assert Pow2(8) == 256;
    Pow2Sum(8, 8);
    Pow2Sum(16, 16);
    Pow2Sum(32, 32);
  }

  lemma {:induction false} Pow2Sum(v: nat, w: nat)
    ensures Pow2(v + w) == Pow2(v) * Pow2(w)
    decreases w
  {
    if w > 0 {
      Pow2Sum(v, w - 1);
    }
  }

  /** What is appended: a one, zeros, and 64 bits that write the length. */
  lemma PaddingShape(l: nat)
    requires l < 0x1_0000_0000_0000_0000
    ensures |Padding(l)| == 65 + ZeroFill(l) && Padding(l)[0]
    ensures forall i :: 1 <= i < 1 + ZeroFill(l) ==> !Padding(l)[i]
    ensures Value(Padding(l)[1 + ZeroFill(l)..]) == l
  {
    hide NatBits, ZeroFill, Value, Pow2;
    Pow2Of64();
    NatBitsValue(l, LENGTH_WIDTH);
    assert Padding(l)[1 + ZeroFill(l)..] == NatBits(l, LENGTH_WIDTH);
  }
}
