/**
  How the program computes one block: its own forms of the six logical functions and of a
  big-endian word, each shown equal to the standard's.
 */
module Sha256Block {
  import opened Bits
  import opened Fips180

  // ----- the program's macros, with the rotations written out as the preprocessor expands them -----

  function MacroBigSigma0(x: word): word {
    ((x >> 2) | (x << 30)) ^ ((x >> 13) | (x << 19)) ^ ((x >> 22) | (x << 10))
  }

  function MacroBigSigma1(x: word): word {
    ((x >> 6) | (x << 26)) ^ ((x >> 11) | (x << 21)) ^ ((x >> 25) | (x << 7))
  }

  function MacroSmallSigma0(x: word): word {
    ((x >> 7) | (x << 25)) ^ ((x >> 18) | (x << 14)) ^ (x >> 3)
  }

  function MacroSmallSigma1(x: word): word {
    ((x >> 17) | (x << 15)) ^ ((x >> 19) | (x << 13)) ^ (x >> 10)
  }

  function MacroCh(x: word, y: word, z: word): word {
    (x & (y ^ z)) ^ z
  }

  function MacroMaj(x: word, y: word, z: word): word {
    (x & (y | z)) | (y & z)
  }

  lemma BigSigma0IsFips(x: word)
    ensures MacroBigSigma0(x) == BigSigma0(x)
  {
    assert ((x >> 2) | (x << 30)) ^ ((x >> 13) | (x << 19)) ^ ((x >> 22) | (x << 10))
        == x.RotateRight(2) ^ x.RotateRight(13) ^ x.RotateRight(22);
  }

  lemma BigSigma1IsFips(x: word)
    ensures MacroBigSigma1(x) == BigSigma1(x)
  {
    assert ((x >> 6) | (x << 26)) ^ ((x >> 11) | (x << 21)) ^ ((x >> 25) | (x << 7))
        == x.RotateRight(6) ^ x.RotateRight(11) ^ x.RotateRight(25);
  }

  lemma SmallSigma0IsFips(x: word)
    ensures MacroSmallSigma0(x) == SmallSigma0(x)
  {
    assert ((x >> 7) | (x << 25)) ^ ((x >> 18) | (x << 14)) ^ (x >> 3)
        == x.RotateRight(7) ^ x.RotateRight(18) ^ (x >> 3);
  }

  lemma SmallSigma1IsFips(x: word)
    ensures MacroSmallSigma1(x) == SmallSigma1(x)
  {
    assert ((x >> 17) | (x << 15)) ^ ((x >> 19) | (x << 13)) ^ (x >> 10)
        == x.RotateRight(17) ^ x.RotateRight(19) ^ (x >> 10);
  }

  lemma ChIsFips(x: word, y: word, z: word)
    ensures MacroCh(x, y, z) == Ch(x, y, z)
  {
    assert (x & (y ^ z)) ^ z == (x & y) ^ (!x & z);
  }

  lemma MajIsFips(x: word, y: word, z: word)
    ensures MacroMaj(x, y, z) == Maj(x, y, z)
  {
    assert (x & (y | z)) | (y & z) == (x & y) ^ (x & z) ^ (y & z);
  }

  // ----- words and bytes -----

  lemma WordsOfBytes(bs: seq<byte>)
    ensures Words(BytesBits(bs)) == ByteWords(bs)
  {
    ToBytesBytesBits(bs, []);
    assert BytesBits(bs) + [] == BytesBits(bs);
  }

  lemma {:induction false} ByteWordAt(bs: seq<byte>, t: nat)
    requires 4 * t + 3 < |bs|
    ensures ByteWords(bs)[t] == BigEndian(bs[4 * t], bs[4 * t + 1], bs[4 * t + 2], bs[4 * t + 3])
  {
    if t > 0 {
      ByteWordAt(bs[4..], t - 1);
    }
  }

  // ----- one step of the schedule, one round -----

  lemma ScheduleStep(block: seq<word>, t: nat)
    requires |block| == 16 && 16 <= t
    ensures W(block, t) == Sum4(MacroSmallSigma1(W(block, t - 2)), W(block, t - 7),
                                MacroSmallSigma0(W(block, t - 15)), W(block, t - 16))
  {
    hide Sum4, MacroSmallSigma0, MacroSmallSigma1, SmallSigma0, SmallSigma1;
    SmallSigma1IsFips(W(block, t - 2));
    SmallSigma0IsFips(W(block, t - 15));
  }

  lemma RoundsStart(start: Vars, block: seq<word>)
    requires |block| == 16
    ensures Rounds(start, block, 0) == start
  {
  }

  lemma RoundsStep(start: Vars, block: seq<word>, t: nat)
    requires |block| == 16 && t < 64
    ensures Rounds(start, block, t + 1) == Round(Rounds(start, block, t), K[t], W(block, t))
  {
    hide Round, W;
  }

  /** The program's two temporaries and its shuffle of the eight variables are one round. */
  lemma RoundIsFips(a: word, b: word, c: word, d: word, e: word, f: word, g: word, h: word, k: word, w: word)
    ensures
      var temp1 := Sum5(h, MacroBigSigma1(e), MacroCh(e, f, g), k, w);
      var temp2 := Sum2(MacroBigSigma0(a), MacroMaj(a, b, c));
      Vars(Sum2(temp1, temp2), a, b, c, Sum2(d, temp1), e, f, g) == Round(Vars(a, b, c, d, e, f, g, h), k, w)
  {
    hide Sum2, Sum5, MacroBigSigma0, MacroBigSigma1, BigSigma0, BigSigma1, MacroCh, MacroMaj, Ch, Maj;
    BigSigma1IsFips(e);
    ChIsFips(e, f, g);
    BigSigma0IsFips(a);
    MajIsFips(a, b, c);
  }

  lemma CompressByParts(h: hashvalue, block: seq<word>, v: Vars)
    requires |block| == 16 && v == Rounds(VarsOf(h), block, |K|)
    ensures Compress(h, block) == AddVars(h, v)
  {
    hide Rounds, AddVars;
  }

  /** Adding in the working variables one word after the other. */
  lemma AddVarsByWord(h: hashvalue, v: Vars)
    ensures AddVars(h, v)
         == h[0 := Sum2(h[0], v.a)][1 := Sum2(h[1], v.b)][2 := Sum2(h[2], v.c)][3 := Sum2(h[3], v.d)]
             [4 := Sum2(h[4], v.e)][5 := Sum2(h[5], v.f)][6 := Sum2(h[6], v.g)][7 := Sum2(h[7], v.h)]
  {
    hide Sum2;
  }

  // ----- the digest -----

  function LowByte(w: word): byte {
    (w & 0xFF) as byte
  }

  lemma BytesOfWord(w: word)
    ensures BigEndian(LowByte(w >> 24), LowByte(w >> 16), LowByte(w >> 8), LowByte(w)) == w
  {
    assert ((((w >> 24) & 0xFF) as byte as word) << 24) | ((((w >> 16) & 0xFF) as byte as word) << 16)
           | ((((w >> 8) & 0xFF) as byte as word) << 8) | ((w & 0xFF) as byte as word) == w;
  }

  lemma DigestParses(d: seq<byte>, h: seq<word>)
    requires |d| == 32 && |h| == 8
    requires forall i :: 0 <= i < 8 ==> BigEndian(d[4 * i], d[4 * i + 1], d[4 * i + 2], d[4 * i + 3]) == h[i]
    ensures Words(BytesBits(d)) == h
  {
    hide *;
    WordsOfBytes(d);
    forall i | 0 <= i < 8 ensures ByteWords(d)[i] == h[i] {
      ByteWordAt(d, i);
    }
  }
}
