/**
  The shifts and masks of the codec are the regrouping of bits.
 */
module Base64Bits {
  import opened Bits
  import opened Base64Tables
  import opened Base64Spec

  // ----- concatenation -----

  lemma {:induction false} SextetsBitsConcat(a: seq<byte>, b: seq<byte>)
    ensures SextetsBits(a + b) == SextetsBits(a) + SextetsBits(b)
  {
    if a == [] {
      assert a + b == b;
    } else {
      hide SextetBits;
      assert (a + b)[1..] == a[1..] + b;
      SextetsBitsConcat(a[1..], b);
    }
  }

  lemma EightLess(n: nat)
    requires n % 8 == 0 && n > 0
    ensures n >= 8 && (n - 8) % 8 == 0
  {
  }

  lemma {:induction false} ToBytesConcat(a: seq<bool>, b: seq<bool>)
    requires |a| % 8 == 0
    ensures ToBytes(a + b) == ToBytes(a) + ToBytes(b)
  {
    if a == [] {
      assert a + b == b;
    } else {
      hide Pack8;
      EightLess(|a|);
      assert (a + b)[..8] == a[..8] && (a + b)[8..] == a[8..] + b;
      ToBytesConcat(a[8..], b);
    }
  }

  lemma {:induction false} ToSextetsConcat(a: seq<bool>, b: seq<bool>)
    requires |a| % 6 == 0
    ensures ToSextets(a + b) == ToSextets(a) + ToSextets(b)
  {
    if a == [] {
      assert a + b == b;
    } else {
      hide Pack6;
      assert (a + b)[..6] == a[..6] && (a + b)[6..] == a[6..] + b;
      ToSextetsConcat(a[6..], b);
    }
  }

  // ----- sextets and bits are inverse -----

  lemma Pack6Bits(s: seq<bool>)
    requires |s| == 6
    ensures SextetBits(Pack6(s)) == s
  {
  }

  lemma BitsPack6(v: byte)
    requires v < 64
    ensures Pack6(SextetBits(v)) == v
  {
  }

  lemma {:induction false} ToSextetsSextetsBits(vs: seq<byte>)
    requires IsSextets(vs)
    ensures ToSextets(SextetsBits(vs)) == vs
  {
    if vs != [] {
      hide Pack6, SextetBits;
      BitsPack6(vs[0]);
      assert SextetsBits(vs)[..6] == SextetBits(vs[0]) && SextetsBits(vs)[6..] == SextetsBits(vs[1..]);
      ToSextetsSextetsBits(vs[1..]);
    }
  }

  lemma {:induction false} SextetsBitsToSextets(s: seq<bool>)
    requires |s| % 6 == 0
    ensures SextetsBits(ToSextets(s)) == s
  {
    if |s| >= 6 {
      hide Pack6, SextetBits;
      Pack6Bits(s[..6]);
      SextetsBitsToSextets(s[6..]);
      assert s == s[..6] + s[6..];
    }
  }

  // ----- the encoder's expressions -----

  lemma First(c1: byte)
    ensures SextetBits(c1 >> 2) == ByteBits(c1)[..6]
  {
    assert SextetBits(c1 >> 2)
        == [c1 & 0x80 != 0, c1 & 0x40 != 0, c1 & 0x20 != 0, c1 & 0x10 != 0, c1 & 0x08 != 0, c1 & 0x04 != 0];
  }

  lemma Second(c1: byte, c2: byte)
    ensures SextetBits(((c1 & 0x3) << 4) | ((c2 & 0xF0) >> 4)) == ByteBits(c1)[6..] + ByteBits(c2)[..4]
  {
    assert SextetBits(((c1 & 0x3) << 4) | ((c2 & 0xF0) >> 4))
        == [c1 & 0x02 != 0, c1 & 0x01 != 0, c2 & 0x80 != 0, c2 & 0x40 != 0, c2 & 0x20 != 0, c2 & 0x10 != 0];
  }

  lemma Third(c2: byte, c3: byte)
    ensures SextetBits(((c2 & 0xF) << 2) | ((c3 & 0xC0) >> 6)) == ByteBits(c2)[4..] + ByteBits(c3)[..2]
  {
    assert SextetBits(((c2 & 0xF) << 2) | ((c3 & 0xC0) >> 6))
        == [c2 & 0x08 != 0, c2 & 0x04 != 0, c2 & 0x02 != 0, c2 & 0x01 != 0, c3 & 0x80 != 0, c3 & 0x40 != 0];
  }

  lemma Fourth(c3: byte)
    ensures SextetBits(c3 & 0x3F) == ByteBits(c3)[2..]
  {
    assert SextetBits(c3 & 0x3F)
        == [c3 & 0x20 != 0, c3 & 0x10 != 0, c3 & 0x08 != 0, c3 & 0x04 != 0, c3 & 0x02 != 0, c3 & 0x01 != 0];
  }

  lemma SecondAlone(c1: byte)
    ensures SextetBits((c1 & 0x3) << 4) == ByteBits(c1)[6..] + Zeros(4)
  {
    assert SextetBits((c1 & 0x3) << 4)
        == [c1 & 0x02 != 0, c1 & 0x01 != 0, false, false, false, false];
  }

  lemma ThirdAlone(c2: byte)
    ensures SextetBits((c2 & 0xF) << 2) == ByteBits(c2)[4..] + Zeros(2)
  {
    assert SextetBits((c2 & 0xF) << 2)
        == [c2 & 0x08 != 0, c2 & 0x04 != 0, c2 & 0x02 != 0, c2 & 0x01 != 0, false, false];
  }

  // ----- the decoder's expressions -----

  lemma FirstOctet(c1: byte, c2: byte)
    ensures ByteBits((c1 << 2) | (((c2 & 0x30) >> 4) & 0xFF)) == SextetBits(c1) + SextetBits(c2)[..2]
  {
    assert ByteBits((c1 << 2) | (((c2 & 0x30) >> 4) & 0xFF))
        == [c1 & 0x20 != 0, c1 & 0x10 != 0, c1 & 0x08 != 0, c1 & 0x04 != 0,
            c1 & 0x02 != 0, c1 & 0x01 != 0, c2 & 0x20 != 0, c2 & 0x10 != 0];
  }

  lemma SecondOctet(c2: byte, c3: byte)
    ensures ByteBits(((c2 & 0xF) << 4) | (((c3 & 0x3C) >> 2) & 0xFF)) == SextetBits(c2)[2..] + SextetBits(c3)[..4]
  {
    assert ByteBits(((c2 & 0xF) << 4) | (((c3 & 0x3C) >> 2) & 0xFF))
        == [c2 & 0x08 != 0, c2 & 0x04 != 0, c2 & 0x02 != 0, c2 & 0x01 != 0,
            c3 & 0x20 != 0, c3 & 0x10 != 0, c3 & 0x08 != 0, c3 & 0x04 != 0];
    assert SextetBits(c2)[2..] == [c2 & 0x08 != 0, c2 & 0x04 != 0, c2 & 0x02 != 0, c2 & 0x01 != 0];
    assert SextetBits(c3)[..4] == [c3 & 0x20 != 0, c3 & 0x10 != 0, c3 & 0x08 != 0, c3 & 0x04 != 0];
  }

  lemma LowSix(c: byte)
    requires c < 64
    ensures c & 0x3F == c
  {
  }

  lemma TailBits(c: byte)
    ensures SextetBits(c)[4..] == [c & 0x02 != 0, c & 0x01 != 0]
  {
  }

  lemma ThirdOctetLow(c3: byte, c4: byte)
    ensures ByteBits((((c3 & 0x03) << 6) | (c4 & 0x3F)) & 0xFF) == SextetBits(c3)[4..] + SextetBits(c4)
  {
    assert ByteBits((((c3 & 0x03) << 6) | (c4 & 0x3F)) & 0xFF)
        == [c3 & 0x02 != 0, c3 & 0x01 != 0, c4 & 0x20 != 0, c4 & 0x10 != 0,
            c4 & 0x08 != 0, c4 & 0x04 != 0, c4 & 0x02 != 0, c4 & 0x01 != 0];
    TailBits(c3);
  }

  lemma ThirdOctet(c3: byte, c4: byte)
    requires c4 < 64
    ensures ByteBits((((c3 & 0x03) << 6) | c4) & 0xFF) == SextetBits(c3)[4..] + SextetBits(c4)
  {
    hide ByteBits, SextetBits;
    LowSix(c4);
    ThirdOctetLow(c3, c4);
  }

  // ----- blocks -----

  lemma ThreeBytes(c1: byte, c2: byte, c3: byte)
    ensures SextetBits(c1 >> 2) + SextetBits(((c1 & 0x3) << 4) | ((c2 & 0xF0) >> 4))
            + SextetBits(((c2 & 0xF) << 2) | ((c3 & 0xC0) >> 6)) + SextetBits(c3 & 0x3F)
         == ByteBits(c1) + ByteBits(c2) + ByteBits(c3)
  {
    hide SextetBits, ByteBits;
    First(c1);
    Second(c1, c2);
    Third(c2, c3);
    Fourth(c3);
  }

  lemma TwoBytes(c1: byte, c2: byte)
    ensures SextetBits(c1 >> 2) + SextetBits(((c1 & 0x3) << 4) | ((c2 & 0xF0) >> 4)) + SextetBits((c2 & 0xF) << 2)
         == ByteBits(c1) + ByteBits(c2) + Zeros(2)
  {
    hide SextetBits, ByteBits;
    First(c1);
    Second(c1, c2);
    ThirdAlone(c2);
  }

  lemma OneByte(c1: byte)
    ensures SextetBits(c1 >> 2) + SextetBits((c1 & 0x3) << 4) == ByteBits(c1) + Zeros(4)
  {
    hide SextetBits, ByteBits;
    First(c1);
    SecondAlone(c1);
  }

  lemma FourSextets(c1: byte, c2: byte, c3: byte, c4: byte)
    requires c4 < 64
    ensures ByteBits((c1 << 2) | (((c2 & 0x30) >> 4) & 0xFF))
            + ByteBits(((c2 & 0xF) << 4) | (((c3 & 0x3C) >> 2) & 0xFF))
            + ByteBits((((c3 & 0x03) << 6) | c4) & 0xFF)
         == SextetBits(c1) + SextetBits(c2) + SextetBits(c3) + SextetBits(c4)
  {
    hide SextetBits, ByteBits;
    FirstOctet(c1, c2);
    SecondOctet(c2, c3);
    ThirdOctet(c3, c4);
  }
}
