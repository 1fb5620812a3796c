/**
  The encoder, three bytes at a time with a tail of one or two, and what its output is.
 */
module Base64Encode {
  import opened Bits
  import opened Base64Tables
  import opened Base64Spec
  import opened Base64Bits

  // ----- whole groups of three bytes encode on their own -----

  lemma {:induction false} CharsConcat(a: seq<byte>, b: seq<byte>)
    requires IsSextets(a) && IsSextets(b)
    ensures IsSextets(a + b)
    ensures Chars(a + b) == Chars(a) + Chars(b)
  {
    if a == [] {
      assert a + b == b;
    } else {
      hide EncChar;
      assert (a + b)[1..] == a[1..] + b;
      CharsConcat(a[1..], b);
    }
  }

  lemma WholeTriples(m: nat, n: nat)
    requires m % 3 == 0
    ensures 8 * m % 6 == 0 && PadCount(m) == 0 && PadCount(m + n) == PadCount(n)
  {
    var q := m / 3;
    assert 8 * m == 6 * (4 * q);
  }

  lemma GroupsConcat(a: seq<byte>, b: seq<byte>)
    requires |a| % 3 == 0
    ensures Groups(a + b) == Groups(a) + Groups(b)
  {
    hide BytesBits, ToSextets, PadCount;
    BytesBitsConcat(a, b);
    var tail := Zeros(Fill(|b|));
    WholeTriples(|a|, |b|);
    assert BytesBits(a) + BytesBits(b) + tail == BytesBits(a) + (BytesBits(b) + tail);
    assert BytesBits(a) + Zeros(0) == BytesBits(a);
    ToSextetsConcat(BytesBits(a), BytesBits(b) + tail);
  }

  /** Encoding whole groups of three bytes first and the rest after is encoding it all. */
  lemma EncodeConcat(a: seq<byte>, b: seq<byte>)
    requires |a| % 3 == 0
    ensures Encode(a + b) == Encode(a) + Encode(b)
  {
    hide Groups, Chars, PadCount;
    GroupsConcat(a, b);
    CharsConcat(Groups(a), Groups(b));
    WholeTriples(|a|, |b|);
  }

  // ----- the last or only group -----

  lemma GroupsOf(b: seq<byte>, vs: seq<byte>)
    requires IsSextets(vs) && SextetsBits(vs) == BytesBits(b) + Zeros(Fill(|b|))
    ensures Groups(b) == vs
  {
    ToSextetsSextetsBits(vs);
  }

  lemma SextetRanges(c1: byte, c2: byte, c3: byte)
    ensures c1 >> 2 < 64 && (c1 & 0x3) << 4 < 64 && (c2 & 0xF) << 2 < 64 && c3 & 0x3F < 64
    ensures ((c1 & 0x3) << 4) | ((c2 & 0xF0) >> 4) < 64
    ensures ((c2 & 0xF) << 2) | ((c3 & 0xC0) >> 6) < 64
  {
  }

  lemma SextetsBits4(a: byte, b: byte, c: byte, d: byte)
    ensures SextetsBits([a]) == SextetBits(a)
    ensures SextetsBits([a, b]) == SextetBits(a) + SextetBits(b)
    ensures SextetsBits([a, b, c]) == SextetBits(a) + SextetBits(b) + SextetBits(c)
    ensures SextetsBits([a, b, c, d]) == SextetBits(a) + SextetBits(b) + SextetBits(c) + SextetBits(d)
  {
    hide SextetBits;
    assert [a, b, c, d] == [a] + [b] + [c] + [d] && [a, b, c] == [a] + [b] + [c] && [a, b] == [a] + [b];
    SextetsBitsConcat([a] + [b] + [c], [d]);
    SextetsBitsConcat([a] + [b], [c]);
    SextetsBitsConcat([a], [b]);
  }

  lemma BytesBits3(a: byte, b: byte, c: byte)
    ensures BytesBits([a]) == ByteBits(a)
    ensures BytesBits([a, b]) == ByteBits(a) + ByteBits(b)
    ensures BytesBits([a, b, c]) == ByteBits(a) + ByteBits(b) + ByteBits(c)
  {
    hide ByteBits;
    assert [a, b, c] == [a] + [b] + [c] && [a, b] == [a] + [b];
    BytesBitsConcat([a] + [b], [c]);
    BytesBitsConcat([a], [b]);
  }

  lemma GroupsThree(c1: byte, c2: byte, c3: byte)
    ensures Groups([c1, c2, c3])
         == [c1 >> 2, ((c1 & 0x3) << 4) | ((c2 & 0xF0) >> 4), ((c2 & 0xF) << 2) | ((c3 & 0xC0) >> 6), c3 & 0x3F]
  {
    hide SextetBits, ByteBits, SextetsBits, BytesBits, Groups;
    var v1, v2 := c1 >> 2, ((c1 & 0x3) << 4) | ((c2 & 0xF0) >> 4);
    var v3, v4 := ((c2 & 0xF) << 2) | ((c3 & 0xC0) >> 6), c3 & 0x3F;
    SextetRanges(c1, c2, c3);
    ThreeBytes(c1, c2, c3);
    SextetsBits4(v1, v2, v3, v4);
    BytesBits3(c1, c2, c3);
    GroupsOf([c1, c2, c3], [v1, v2, v3, v4]);
  }

  lemma GroupsTwo(c1: byte, c2: byte)
    ensures Groups([c1, c2]) == [c1 >> 2, ((c1 & 0x3) << 4) | ((c2 & 0xF0) >> 4), (c2 & 0xF) << 2]
  {
    hide SextetBits, ByteBits, SextetsBits, BytesBits, Groups;
    var v1, v2, v3 := c1 >> 2, ((c1 & 0x3) << 4) | ((c2 & 0xF0) >> 4), (c2 & 0xF) << 2;
    SextetRanges(c1, c2, 0);
    TwoBytes(c1, c2);
    SextetsBits4(v1, v2, v3, 0);
    BytesBits3(c1, c2, 0);
    GroupsOf([c1, c2], [v1, v2, v3]);
  }

  lemma GroupsOne(c1: byte)
    ensures Groups([c1]) == [c1 >> 2, (c1 & 0x3) << 4]
  {
    hide SextetBits, ByteBits, SextetsBits, BytesBits, Groups;
    var v1, v2 := c1 >> 2, (c1 & 0x3) << 4;
    SextetRanges(c1, 0, 0);
    OneByte(c1);
    SextetsBits4(v1, v2, 0, 0);
    BytesBits3(c1, 0, 0);
    GroupsOf([c1], [v1, v2]);
  }

  lemma Chars4(a: byte, b: byte, c: byte, d: byte)
    requires a < 64 && b < 64 && c < 64 && d < 64
    ensures Chars([a, b]) == [EncChar(a), EncChar(b)]
    ensures Chars([a, b, c]) == [EncChar(a), EncChar(b), EncChar(c)]
    ensures Chars([a, b, c, d]) == [EncChar(a), EncChar(b), EncChar(c), EncChar(d)]
  {
    hide EncChar;
    assert [a, b, c, d] == [a] + [b] + [c] + [d] && [a, b, c] == [a] + [b] + [c] && [a, b] == [a] + [b];
    CharsConcat([a] + [b] + [c], [d]);
    CharsConcat([a] + [b], [c]);
    CharsConcat([a], [b]);
  }

  lemma EncodeThree(c1: byte, c2: byte, c3: byte, v1: byte, v2: byte, v3: byte, v4: byte)
    requires v1 == c1 >> 2 && v2 == ((c1 & 0x3) << 4) | ((c2 & 0xF0) >> 4)
    requires v3 == ((c2 & 0xF) << 2) | ((c3 & 0xC0) >> 6) && v4 == c3 & 0x3F
    ensures v1 < 64 && v2 < 64 && v3 < 64 && v4 < 64
    ensures Encode([c1, c2, c3]) == [EncChar(v1), EncChar(v2), EncChar(v3), EncChar(v4)]
  {
    hide Groups, Chars, EncChar;
    SextetRanges(c1, c2, c3);
    GroupsThree(c1, c2, c3);
    Chars4(v1, v2, v3, v4);
  }

  lemma EncodeTwo(c1: byte, c2: byte, v1: byte, v2: byte, v3: byte)
    requires v1 == c1 >> 2 && v2 == ((c1 & 0x3) << 4) | ((c2 & 0xF0) >> 4) && v3 == (c2 & 0xF) << 2
    ensures v1 < 64 && v2 < 64 && v3 < 64
    ensures Encode([c1, c2]) == [EncChar(v1), EncChar(v2), EncChar(v3)] + "="
  {
    hide Groups, Chars, EncChar;
    SextetRanges(c1, c2, 0);
    GroupsTwo(c1, c2);
    Chars4(v1, v2, v3, 0);
    assert Pads(1) == "=";
  }

  lemma EncodeOne(c1: byte, v1: byte, v2: byte)
    requires v1 == c1 >> 2 && v2 == (c1 & 0x3) << 4
    ensures v1 < 64 && v2 < 64
    ensures Encode([c1]) == [EncChar(v1), EncChar(v2)] + "=="
  {
    hide Groups, Chars, EncChar;
    SextetRanges(c1, 0, 0);
    GroupsOne(c1);
    Chars4(v1, v2, 0, 0);
    assert Pads(2) == "==";
  }

  lemma EncodeNothing()
    ensures Encode([]) == ""
  {
    GroupsOf([], []);
  }

  // ----- the encoder -----

  method EncodeFromArray(s: seq<byte>) returns (os: string)
    ensures os == Encode(s)
  {
    hide Encode, EncChar;
    os := "";
    var i := 0;
    EncodeNothing();
    while i < |s|
      invariant 0 <= i <= |s| && (i % 3 == 0 || i == |s|)
      invariant os == Encode(s[..i])
    {
      ghost var done := s[..i];
      EncodeConcat(done, s[i..]);
      assert s == done + s[i..];
      var c1 := s[i];
      i := i + 1;
      if i == |s| {
        EncodeOne(c1, c1 >> 2, (c1 & 0x3) << 4);
        os := os + [EncChar(c1 >> 2), EncChar((c1 & 0x3) << 4)] + "==";
        assert s[i - 1..] == [c1];
        break;
      }
      var c2 := s[i];
      i := i + 1;
      if i == |s| {
        EncodeTwo(c1, c2, c1 >> 2, ((c1 & 0x3) << 4) | ((c2 & 0xF0) >> 4), (c2 & 0xF) << 2);
        os := os + [EncChar(c1 >> 2), EncChar(((c1 & 0x3) << 4) | ((c2 & 0xF0) >> 4)), EncChar((c2 & 0xF) << 2)] + "=";
        assert s[i - 2..] == [c1, c2];
        break;
      }
      var c3 := s[i];
      i := i + 1;
      EncodeThree(c1, c2, c3, c1 >> 2, ((c1 & 0x3) << 4) | ((c2 & 0xF0) >> 4),
                  ((c2 & 0xF) << 2) | ((c3 & 0xC0) >> 6), c3 & 0x3F);
      os := os + [EncChar(c1 >> 2), EncChar(((c1 & 0x3) << 4) | ((c2 & 0xF0) >> 4)),
                  EncChar(((c2 & 0xF) << 2) | ((c3 & 0xC0) >> 6)), EncChar(c3 & 0x3F)];
      EncodeConcat(done, [c1, c2, c3]);
      assert s[..i] == done + [c1, c2, c3];
    }
    assert s[..|s|] == s;
  }
}
