/**
  The padding the program writes, byte by byte, is the padding of FIPS 180-4 section 5.1.1.
 */
module Sha256Padding {
  import opened Bits
  import opened Fips180
  import opened Sha256Block

  type uint32 = n: nat | n < 0x1_0000_0000

  function ZeroBytes(n: nat): (r: seq<byte>)
    ensures |r| == n
    ensures forall i :: 0 <= i < n ==> r[i] == 0
  {
    seq(n, i => 0)
  }

  /** The narrowing conversion to an unsigned byte. */
  function Truncate(n: nat): byte {
    (n % 256) as byte
  }

  /** The four bytes the program stores for a 32-bit number. */
  function WordBytes(v: nat): (r: seq<byte>)
    ensures |r| == 4
  {
    [Truncate(v / 0x100_0000), Truncate(v / 0x1_0000), Truncate(v / 0x100), Truncate(v)]
  }

  const LENGTH_BYTES: nat := 8

  /** The low n bytes of v, most significant first. */
  function NatBytes(v: nat, n: nat): (r: seq<byte>)
    ensures |r| == n
    decreases n
  {
    if n == 0 then [] else NatBytes(v / 256, n - 1) + [Truncate(v)]
  }

  /** What the program appends to a message of length bits whose last block holds index bytes so far. */
  function PadTail(index: nat, padByte: byte, length: nat): seq<byte> {
    [padByte] + ZeroBytes((55 - index) % 64) + NatBytes(length, LENGTH_BYTES)
  }

  // ----- the length -----

  lemma {:induction false} NatBytesBits(v: nat, n: nat)
    ensures BytesBits(NatBytes(v, n)) == NatBits(v, 8 * n)
    decreases n
  {
    if n > 0 {
      var eight: nat := 8;
      assert Pow2(8) == 256;
      NatBitsSplit(v, v / 256, v % 256, 8 * (n - 1), eight);
      NatBitsByte(v % 256, eight);
      NatBytesBits(v / 256, n - 1);
      BytesBitsConcat(NatBytes(v / 256, n - 1), [Truncate(v)]);
      assert BytesBits([Truncate(v)]) == ByteBits(Truncate(v));
    }
  }

  lemma NatBytes4(v: nat, n: nat)
    requires n >= 4
    ensures NatBytes(v, n) == NatBytes(v / 0x1_0000_0000, n - 4) + WordBytes(v)
  {
    assert NatBytes(v, n) == NatBytes(v / 0x100, n - 1) + [Truncate(v)];
    assert v / 0x100 / 0x100 == v / 0x1_0000;
    assert NatBytes(v / 0x100, n - 1) == NatBytes(v / 0x1_0000, n - 2) + [Truncate(v / 0x100)];
    assert v / 0x1_0000 / 0x100 == v / 0x100_0000;
    assert NatBytes(v / 0x1_0000, n - 2) == NatBytes(v / 0x100_0000, n - 3) + [Truncate(v / 0x1_0000)];
    assert v / 0x100_0000 / 0x100 == v / 0x1_0000_0000;
  }

  lemma ShiftOut(x: nat, low: nat)
    ensures (256 * x + low) / 256 == x + low / 256
    ensures Truncate(256 * x + low) == Truncate(low)
  {
    assert (256 * x + low) % 256 == low % 256;
  }

  lemma DivideTwice(n: nat)
    ensures n / 0x100 / 0x100 == n / 0x1_0000 && n / 0x1_0000 / 0x100 == n / 0x100_0000
  {
  }

  lemma LowWordBytes(high: uint32, low: uint32)
    ensures WordBytes(high * 0x1_0000_0000 + low) == WordBytes(low)
  {
    hide Truncate;
    var v := high * 0x1_0000_0000 + low;
    DivideTwice(v);
    DivideTwice(low);
    ShiftOut(high * 0x100_0000, low);
    ShiftOut(high * 0x1_0000, low / 0x100);
    ShiftOut(high * 0x100, low / 0x1_0000);
    ShiftOut(high, low / 0x100_0000);
  }

  /** The bytes stored from the two halves of the length are its 64-bit form. */
  lemma LengthBytes(high: uint32, low: uint32)
    ensures WordBytes(high) + WordBytes(low) == NatBytes(high * 0x1_0000_0000 + low, LENGTH_BYTES)
  {
    hide NatBytes, WordBytes;
    var v := high * 0x1_0000_0000 + low;
    NatBytes4(v, LENGTH_BYTES);
    assert v / 0x1_0000_0000 == high;
    NatBytes4(high, LENGTH_BYTES - 4);
    assert NatBytes(high / 0x1_0000_0000, LENGTH_BYTES - 8) == [];
    LowWordBytes(high, low);
  }

  // ----- the whole padding -----

  lemma {:induction false} ZeroBytesBits(n: nat)
    ensures BytesBits(ZeroBytes(n)) == Zeros(8 * n)
  {
    if n > 0 {
      assert ZeroBytes(n)[1..] == ZeroBytes(n - 1);
      ZeroBytesBits(n - 1);
      assert ByteBits(0) == Zeros(8);
    }
  }

  /** The pad byte finishes the message's last bits, then comes the standard's one bit. */
  ghost predicate MarksEnd(padByte: byte, tail: seq<bool>) {
    |tail| < 8 && ByteBits(padByte) == tail + [true] + Zeros(7 - |tail|)
  }

  lemma PadTailBits(index: nat, tail: seq<bool>, padByte: byte, length: nat)
    requires MarksEnd(padByte, tail)
    requires ZeroFill(length) == 7 - |tail| + 8 * ((55 - index) % 64)
    ensures BytesBits(PadTail(index, padByte, length)) == tail + Padding(length)
  {
    hide NatBits, NatBytes, ByteBits;
    var z := (55 - index) % 64;
    NatBytesBits(length, LENGTH_BYTES);
    ZeroBytesBits(z);
    BytesBitsConcat([padByte] + ZeroBytes(z), NatBytes(length, LENGTH_BYTES));
    BytesBitsConcat([padByte], ZeroBytes(z));
    assert BytesBits([padByte]) == ByteBits(padByte);
    assert Zeros(7 - |tail|) + Zeros(8 * z) == Zeros(ZeroFill(length));
  }

  lemma WholeBlocks(x: int, q: nat)
    ensures (x - 512 * q) % 512 == x % 512
  {
  }

  lemma LastBlock(r: nat, k: nat)
    requires r < 64 && k < 8
    ensures (447 - 8 * r - k) % 512 == 7 - k + 8 * ((55 - r) % 64)
  {
    var x := 447 - 8 * r - k;
    if r <= 55 {
      assert x % 512 == x && (55 - r) % 64 == 55 - r;
    } else {
      assert x % 512 == x + 512 && (55 - r) % 64 == 119 - r;
    }
  }

  /** The standard's count of zero bits and the program's count of zero bytes. */
  lemma ZeroFillInBytes(n: nat, k: nat)
    requires k < 8
    ensures ZeroFill(8 * n + k) == 7 - k + 8 * ((55 - n % 64) % 64)
  {
    var q, r := n / 64, n % 64;
    assert 447 - (8 * n + k) == (447 - 8 * r - k) - 512 * q;
    WholeBlocks(447 - 8 * r - k, q);
    LastBlock(r, k);
  }

  lemma JoinPadding(m: seq<byte>, t: seq<byte>, tail: seq<bool>)
    requires BytesBits(t) == tail + Padding(8 * |m| + |tail|)
    ensures BytesBits(m + t) == Pad(BytesBits(m) + tail)
  {
    hide Padding;
    BytesBitsConcat(m, t);
    assert BytesBits(m) + (tail + Padding(8 * |m| + |tail|)) == BytesBits(m) + tail + Padding(8 * |m| + |tail|);
  }

  lemma PaddedIsFips(m: seq<byte>, tail: seq<bool>, padByte: byte)
    requires |tail| < 8 && MarksEnd(padByte, tail)
    ensures BytesBits(m + PadTail(|m| % 64, padByte, 8 * |m| + |tail|)) == Pad(BytesBits(m) + tail)
  {
    hide *;
    var l := 8 * |m| + |tail|;
    ZeroFillInBytes(|m|, |tail|);
    PadTailBits(|m| % 64, tail, padByte, l);
    JoinPadding(m, PadTail(|m| % 64, padByte, l), tail);
  }

  // ----- pad bytes -----

  const MASKS: seq<byte> := [0x00, 0x80, 0xC0, 0xE0, 0xF0, 0xF8, 0xFC, 0xFE]
  const MARKBITS: seq<byte> := [0x80, 0x40, 0x20, 0x10, 0x08, 0x04, 0x02, 0x01]

  lemma WholeBytesMark()
    ensures MarksEnd(0x80, [])
  {
    assert ByteBits(0x80) == [true, false, false, false, false, false, false, false];
  }

  lemma MarkAfter1(b: byte)
    ensures MarksEnd((b & MASKS[1]) | MARKBITS[1], ByteBits(b)[..1])
  {
    assert ByteBits((b & 0x80) | 0x40)
        == [b & 0x80 != 0, true, false, false, false, false, false, false];
  }

  lemma MarkAfter2(b: byte)
    ensures MarksEnd((b & MASKS[2]) | MARKBITS[2], ByteBits(b)[..2])
  {
    assert ByteBits((b & 0xC0) | 0x20)
        == [b & 0x80 != 0, b & 0x40 != 0, true, false, false, false, false, false];
  }

  lemma MarkAfter3(b: byte)
    ensures MarksEnd((b & MASKS[3]) | MARKBITS[3], ByteBits(b)[..3])
  {
    assert ByteBits((b & 0xE0) | 0x10)
        == [b & 0x80 != 0, b & 0x40 != 0, b & 0x20 != 0, true, false, false, false, false];
  }

  lemma MarkAfter4(b: byte)
    ensures MarksEnd((b & MASKS[4]) | MARKBITS[4], ByteBits(b)[..4])
  {
    assert ByteBits((b & 0xF0) | 0x08)
        == [b & 0x80 != 0, b & 0x40 != 0, b & 0x20 != 0, b & 0x10 != 0, true, false, false, false];
  }

  lemma MarkAfter5(b: byte)
    ensures MarksEnd((b & MASKS[5]) | MARKBITS[5], ByteBits(b)[..5])
  {
    assert ByteBits((b & 0xF8) | 0x04)
        == [b & 0x80 != 0, b & 0x40 != 0, b & 0x20 != 0, b & 0x10 != 0, b & 0x08 != 0, true, false, false];
  }

  lemma MarkAfter6(b: byte)
    ensures MarksEnd((b & MASKS[6]) | MARKBITS[6], ByteBits(b)[..6])
  {
    assert ByteBits((b & 0xFC) | 0x02)
        == [b & 0x80 != 0, b & 0x40 != 0, b & 0x20 != 0, b & 0x10 != 0, b & 0x08 != 0, b & 0x04 != 0, true, false];
  }

  lemma MarkAfter7(b: byte)
    ensures MarksEnd((b & MASKS[7]) | MARKBITS[7], ByteBits(b)[..7])
  {
    assert ByteBits((b & 0xFE) | 0x01)
        == [b & 0x80 != 0, b & 0x40 != 0, b & 0x20 != 0, b & 0x10 != 0, b & 0x08 != 0, b & 0x04 != 0,
            b & 0x02 != 0, true];
  }

  /** Masking and marking keeps the top bits of b and puts the one bit right after them. */
  lemma PartialByteMark(b: byte, k: nat)
    requires 0 < k < 8
    ensures MarksEnd((b & MASKS[k]) | MARKBITS[k], ByteBits(b)[..k])
  {
    match k {
      case 1 => MarkAfter1(b);
      case 2 => MarkAfter2(b);
      case 3 => MarkAfter3(b);
      case 4 => MarkAfter4(b);
      case 5 => MarkAfter5(b);
      case 6 => MarkAfter6(b);
      case 7 => MarkAfter7(b);
    }
  }

  // ----- blocks -----

  /** Hashing a whole number of blocks first and the rest after is hashing it all. */
  lemma {:induction false} FoldConcat(h: hashvalue, a: seq<bool>, b: seq<bool>)
    requires |a| % 512 == 0
    ensures Fold(h, a + b) == Fold(Fold(h, a), b)
    decreases |a|
  {
    if |a| == 0 {
      assert a + b == b;
    } else {
      assert (a + b)[..512] == a[..512] && (a + b)[512..] == a[512..] + b;
      FoldConcat(Compress(h, Words(a[..512])), a[512..], b);
    }
  }

  lemma FoldNothing()
    ensures Fold(H0, BytesBits([])) == H0
  {
  }

  lemma FoldBlock(h: hashvalue, block: seq<byte>)
    requires |block| == 64
    ensures Fold(h, BytesBits(block)) == Compress(h, ByteWords(block))
  {
    var s := BytesBits(block);
    assert s[..512] == s && s[512..] == [];
    WordsOfBytes(block);
    assert Fold(Compress(h, Words(s)), []) == Compress(h, Words(s));
  }

  /** An unfinished block does not change the hash value. */
  lemma FoldRest(h: hashvalue, a: seq<byte>, b: seq<byte>)
    requires |a| % 64 == 0 && |b| < 64
    ensures Fold(h, BytesBits(a + b)) == Fold(h, BytesBits(a))
  {
    hide BytesBits, Compress, Words;
    BytesBitsConcat(a, b);
    FoldConcat(h, BytesBits(a), BytesBits(b));
  }

  lemma FoldBytes(h: hashvalue, a: seq<byte>, b: seq<byte>)
    requires |a| % 64 == 0
    ensures Fold(h, BytesBits(a + b)) == Fold(Fold(h, BytesBits(a)), BytesBits(b))
  {
    hide BytesBits, Fold;
    BytesBitsConcat(a, b);
    FoldConcat(h, BytesBits(a), BytesBits(b));
  }

  lemma FoldShort(a: seq<byte>, b: seq<byte>, x: byte)
    requires |a| % 64 == 0 && |b| < 63
    ensures Fold(H0, BytesBits(a + b + [x])) == Fold(H0, BytesBits(a + b))
  {
    hide Fold, BytesBits;
    FoldRest(H0, a, b);
    FoldRest(H0, a, b + [x]);
    assert a + b + [x] == a + (b + [x]);
  }

  lemma LastBlockStart(n: nat) returns (cut: nat)
    ensures cut <= n && cut % 64 == 0 && n - cut == n % 64
  {
    cut := 64 * (n / 64);
  }

  /** Byte x leaves the last block of m + [x] unfinished. */
  lemma FoldUnfinished(m: seq<byte>, x: byte)
    requires |m| % 64 < 63
    ensures Fold(H0, BytesBits(m + [x])) == Fold(H0, BytesBits(m))
  {
    hide Fold, BytesBits;
    var cut := LastBlockStart(|m|);
    FoldShort(m[..cut], m[cut..], x);
    assert m == m[..cut] + m[cut..];
  }

  /** The bytes of rest complete the last block of m. */
  lemma FoldFilled(m: seq<byte>, rest: seq<byte>, block: seq<byte>)
    requires 0 < |rest| <= 64 && (|m| + |rest|) % 64 == 0
    requires block == m[|m| + |rest| - 64..] + rest
    ensures Fold(H0, BytesBits(m + rest)) == Compress(Fold(H0, BytesBits(m)), ByteWords(block))
  {
    hide Fold, BytesBits, Compress, ByteWords;
    var cut := |m| + |rest| - 64;
    assert m == m[..cut] + m[cut..] && m + rest == m[..cut] + block;
    FoldRest(H0, m[..cut], m[cut..]);
    FoldBytes(H0, m[..cut], block);
    FoldBlock(Fold(H0, BytesBits(m[..cut])), block);
  }

  /** With its pad byte, zeros and length a message of n bytes ends on a block. */
  lemma BlockCount(n: nat)
    ensures n + 9 + (55 - n % 64) % 64 == 64 * (n / 64 + (n % 64 + 8) / 64 + 1)
    ensures n / 64 + (n % 64 + 8) / 64 == (n + 8) / 64
  {
    var q, r := n / 64, n % 64;
    assert n == 64 * q + r;
    if r < 56 {
      assert (55 - r) % 64 == 55 - r && (r + 8) / 64 == 0;
    } else {
      assert (55 - r) % 64 == 119 - r && (r + 8) / 64 == 1;
    }
  }

  lemma PadSize(s: seq<bool>)
    ensures |Pad(s)| == |s| + 65 + ZeroFill(|s|)
  {
    hide Padding, ZeroFill;
  }

  lemma PaddedLength(m: seq<byte>, tail: seq<bool>)
    requires |tail| < 8
    ensures |Pad(BytesBits(m) + tail)| == 8 * (|m| + 9 + (55 - |m| % 64) % 64)
  {
    hide Pad, BytesBits, ZeroFill;
    ZeroFillInBytes(|m|, |tail|);
    PadSize(BytesBits(m) + tail);
    assert |BytesBits(m) + tail| == 8 * |m| + |tail|;
  }

  lemma WholeQuotient(n: nat, k: nat)
    requires n == 64 * k
    ensures 8 * n == 512 * k && 8 * n / 512 == k
  {
  }

  /** The padded message is |m| / 64 full blocks of m and one or two more, by where m ends. */
  lemma PaddedBlocks(m: seq<byte>, tail: seq<bool>)
    requires |tail| < 8
    ensures |Pad(BytesBits(m) + tail)| == 512 * (|m| / 64 + (|m| % 64 + 8) / 64 + 1)
    ensures |Pad(BytesBits(m) + tail)| / 512 == (|m| + 8) / 64 + 1
  {
    hide Pad, BytesBits;
    PaddedLength(m, tail);
    BlockCount(|m|);
    WholeQuotient(|m| + 9 + (55 - |m| % 64) % 64, |m| / 64 + (|m| % 64 + 8) / 64 + 1);
  }
}
