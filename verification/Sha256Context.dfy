/**
  The incremental hasher: a 64-byte buffer filled byte by byte, the message length in two 32-bit
  halves, and two flags. The ghost field session says what the object stands for; each public
  method moves it exactly as the functions at the top say, whatever the buffer holds.
 */
module Sha256Context {
  import opened Bits
  import opened Fips180
  import opened Sha256Block
  import opened Sha256Padding

  const BLOCK_SIZE: nat := 64
  const HASH_SIZE: nat := 32

  // ----- what an object stands for -----

  /** A message still being fed, a finished bit string, or an object that gives no digest. */
  datatype Session = Feeding(message: seq<byte>) | Finished(bits: seq<bool>) | Corrupted

  /** The first message length, in bytes, that is too long for the standard: 2^64 bits. */
  const TOO_LONG: nat := 0x2000_0000_0000_0000

  function Fed(s: Session, data: seq<byte>): Session {
    match s
    case Feeding(m) => if |m + data| < TOO_LONG then Feeding(m + data) else Corrupted
    case _ => s
  }

  /** The top length bits of messageBits end the message. */
  function Ended(s: Session, messageBits: byte, length: nat): Session {
    if length == 0 then s
    else if s.Feeding? && length < 8 then Finished(BytesBits(s.message) + ByteBits(messageBits)[..length])
    else Corrupted
  }

  function Asked(s: Session): Session {
    match s
    case Feeding(m) => Finished(BytesBits(m))
    case _ => s
  }

  lemma IndexOfNext(n: nat)
    ensures (n + 1) % BLOCK_SIZE == if n % BLOCK_SIZE == BLOCK_SIZE - 1 then 0 else n % BLOCK_SIZE + 1
    ensures (n + 1) / BLOCK_SIZE == if n % BLOCK_SIZE == BLOCK_SIZE - 1 then n / BLOCK_SIZE + 1 else n / BLOCK_SIZE
  {
  }

  lemma LengthOfNext(n: nat)
    requires n < TOO_LONG
    ensures 8 * n + 8 >= 0x1_0000_0000_0000_0000 <==> n + 1 == TOO_LONG
    ensures n + 1 < TOO_LONG ==> (8 * n + 8) % 0x1_0000_0000_0000_0000 == 8 * (n + 1)
  {
  }

  /** Up to seven bits after whole bytes never overflow the length. */
  lemma LengthOfBits(n: nat, k: nat)
    requires n < TOO_LONG && k < 8
    ensures 8 * n + k < 0x1_0000_0000_0000_0000
    ensures (8 * n + k) % 0x1_0000_0000_0000_0000 == 8 * n + k
  {
  }

  /** Bytes that fill up the block in which n bytes end. */
  lemma WholeAfter(n: nat, k: nat)
    requires n % BLOCK_SIZE + k == BLOCK_SIZE
    ensures (n + k) % BLOCK_SIZE == 0
  {
    assert n + k == BLOCK_SIZE * (n / BLOCK_SIZE + 1);
  }

  // ----- the object -----

  class Sha256 {
    const intermediateHash: array<word>
    const messageBlock: array<byte>
    var lengthLow: uint32
    var lengthHigh: uint32
    var messageBlockIndex: nat
    var computed: bool
    var corrupted: bool

    ghost var session: Session
    ghost var blocksProcessed: nat

    ghost predicate Shape()
      reads this
    {
      intermediateHash.Length == 8 && messageBlock.Length == BLOCK_SIZE && messageBlockIndex <= BLOCK_SIZE
    }

    function Length(): nat
      reads this
    {
      lengthHigh * 0x1_0000_0000 + lengthLow
    }

    ghost predicate IsFeeding(m: seq<byte>)
      requires Shape()
      reads this, intermediateHash, messageBlock
    {
      && !computed && !corrupted
      && |m| < TOO_LONG && Length() == 8 * |m|
      && messageBlockIndex == |m| % BLOCK_SIZE
      && messageBlock[..messageBlockIndex] == m[|m| - messageBlockIndex..]
      && intermediateHash[..] == Fold(H0, BytesBits(m))
      && blocksProcessed == |m| / BLOCK_SIZE
    }

    ghost predicate IsFinished(bits: seq<bool>)
      requires Shape()
      reads this, intermediateHash, messageBlock
    {
      && computed && !corrupted
      && Hashable(bits)
      && lengthLow == 0 && lengthHigh == 0 && messageBlockIndex == 0
      && messageBlock[..] == ZeroBytes(BLOCK_SIZE)
      && intermediateHash[..] == Hash(bits)
      && blocksProcessed == |Pad(bits)| / 512
    }

    ghost predicate Valid()
      reads this, intermediateHash, messageBlock
      ensures Valid() ==> corrupted == session.Corrupted?
      ensures Valid() && !corrupted ==> computed == session.Finished?
      ensures Valid() && session.Feeding? ==> |session.message| < TOO_LONG
    {
      Shape() &&
      match session
      case Feeding(m) => IsFeeding(m)
      case Finished(bits) => IsFinished(bits)
      case Corrupted => corrupted
    }

    // ----- one block -----

    /** The first sixteen words are those of the block in the buffer. */
    method LoadBlock(w: array<word>)
      requires Shape() && w.Length == 64
      modifies w
      ensures forall t :: 0 <= t < 16 ==> w[t] == W(ByteWords(messageBlock[..]), t)
    {
      hide BigEndian;
      var t := 0;
      while t < 16
        invariant 0 <= t <= 16
        invariant forall i :: 0 <= i < t ==> w[i] == ByteWords(messageBlock[..])[i]
      {
        w[t] := BigEndian(messageBlock[4 * t], messageBlock[4 * t + 1],
                          messageBlock[4 * t + 2], messageBlock[4 * t + 3]);
        ByteWordAt(messageBlock[..], t);
        t := t + 1;
      }
    }

    /** The message schedule of the block in the buffer. */
    method MessageSchedule() returns (w: array<word>)
      requires Shape()
      ensures fresh(w) && w.Length == 64
      ensures forall t :: 0 <= t < 64 ==> w[t] == W(ByteWords(messageBlock[..]), t)
    {
      hide W, ByteWords, BigEndian, Sum4, MacroSmallSigma0, MacroSmallSigma1;
      ghost var block := ByteWords(messageBlock[..]);
      w := new word[64];
      LoadBlock(w);
      var t := 16;
      while t < 64
        invariant 16 <= t <= 64
        invariant forall i :: 0 <= i < t ==> w[i] == W(block, i)
      {
        ScheduleStep(block, t);
        w[t] := Sum4(MacroSmallSigma1(w[t - 2]), w[t - 7], MacroSmallSigma0(w[t - 15]), w[t - 16]);
        t := t + 1;
      }
    }

    /** The eight working variables after the sixty-four rounds. */
    method RunRounds(w: array<word>, ghost block: seq<word>)
      returns (a: word, b: word, c: word, d: word, e: word, f: word, g: word, h: word)
      requires Shape() && w.Length == 64 && |block| == 16
      requires forall t :: 0 <= t < 64 ==> w[t] == W(block, t)
      ensures Vars(a, b, c, d, e, f, g, h) == Rounds(VarsOf(intermediateHash[..]), block, |K|)
    {
      ghost var start := VarsOf(intermediateHash[..]);
      a, b, c, d := intermediateHash[0], intermediateHash[1], intermediateHash[2], intermediateHash[3];
      e, f, g, h := intermediateHash[4], intermediateHash[5], intermediateHash[6], intermediateHash[7];
      assert Vars(a, b, c, d, e, f, g, h) == start;
      hide *;
      RoundsStart(start, block);
      var t := 0;
      while t < 64
        invariant 0 <= t <= 64
        invariant Vars(a, b, c, d, e, f, g, h) == Rounds(start, block, t)
      {
        RoundsStep(start, block, t);
        RoundIsFips(a, b, c, d, e, f, g, h, K[t], w[t]);
        var temp1 := Sum5(h, MacroBigSigma1(e), MacroCh(e, f, g), K[t], w[t]);
        var temp2 := Sum2(MacroBigSigma0(a), MacroMaj(a, b, c));
        h := g;
        g := f;
        f := e;
        e := Sum2(d, temp1);
        d := c;
        c := b;
        b := a;
        a := Sum2(temp1, temp2);
        t := t + 1;
      }
    }

    /** One compression, section 6.2.2 of FIPS 180-4, of the block in the buffer. */
    method ProcessMessageBlock()
      requires Shape()
      modifies this`messageBlockIndex, this`blocksProcessed, intermediateHash
      ensures intermediateHash[..] == Compress(old(intermediateHash[..]), ByteWords(messageBlock[..]))
      ensures messageBlockIndex == 0
      ensures blocksProcessed == old(blocksProcessed) + 1
    {
      hide Rounds, W, ByteWords, Compress, AddVars, VarsOf;
      ghost var start := intermediateHash[..];
      var w := MessageSchedule();
      var a, b, c, d, e, f, g, h := RunRounds(w, ByteWords(messageBlock[..]));
      CompressByParts(start, ByteWords(messageBlock[..]), Vars(a, b, c, d, e, f, g, h));
      AddToHash(a, b, c, d, e, f, g, h);
      messageBlockIndex := 0;
      blocksProcessed := blocksProcessed + 1;
    }

    method AddWord(i: nat, x: word)
      requires Shape() && i < 8
      modifies intermediateHash
      ensures intermediateHash[..] == old(intermediateHash[..])[i := Sum2(old(intermediateHash[i]), x)]
    {
      hide Sum2;
      intermediateHash[i] := Sum2(intermediateHash[i], x);
    }

    method AddToHash(a: word, b: word, c: word, d: word, e: word, f: word, g: word, h: word)
      requires Shape()
      modifies intermediateHash
      ensures intermediateHash[..] == AddVars(old(intermediateHash[..]), Vars(a, b, c, d, e, f, g, h))
    {
      hide Sum2, AddVars;
      ghost var start := intermediateHash[..];
      AddWord(0, a);
      AddWord(1, b);
      AddWord(2, c);
      AddWord(3, d);
      AddWord(4, e);
      AddWord(5, f);
      AddWord(6, g);
      AddWord(7, h);
      AddVarsByWord(start, Vars(a, b, c, d, e, f, g, h));
    }

    // ----- feeding -----

    constructor ()
      ensures Valid() && session == Feeding([])
      ensures fresh(intermediateHash) && fresh(messageBlock)
    {
      computed := false;
      corrupted := false;
      lengthLow := 0;
      lengthHigh := 0;
      messageBlockIndex := 0;
      intermediateHash := new word[8];
      messageBlock := new byte[BLOCK_SIZE];
      session := Feeding([]);
      blocksProcessed := 0;
      new;
      hide Fold, BytesBits, IsFinished;
      FoldNothing();
      SetInitialHash();
      assert IsFeeding([]);
      hide IsFeeding;
    }

    method SetInitialHash()
      requires intermediateHash.Length == 8
      modifies intermediateHash
      ensures intermediateHash[..] == H0
    {
      intermediateHash[0] := 0x6A09E667;
      intermediateHash[1] := 0xBB67AE85;
      intermediateHash[2] := 0x3C6EF372;
      intermediateHash[3] := 0xA54FF53A;
      intermediateHash[4] := 0x510E527F;
      intermediateHash[5] := 0x9B05688C;
      intermediateHash[6] := 0x1F83D9AB;
      intermediateHash[7] := 0x5BE0CD19;
    }

    /** Back to an empty message, from any state. */
    method Reset()
      requires Valid()
      modifies this, intermediateHash
      ensures Valid() && session == Feeding([])
    {
      hide Fold, BytesBits, IsFinished;
      FoldNothing();
      computed := false;
      corrupted := false;
      lengthLow := 0;
      lengthHigh := 0;
      messageBlockIndex := 0;
      SetInitialHash();
      session := Feeding([]);
      blocksProcessed := 0;
      assert IsFeeding([]);
      hide IsFeeding;
    }

    /** Adds to the 64-bit length with a hand-made carry; the flag reports, and stores, its overflow. */
    method AddLength(length: uint32) returns (overflow: bool)
      modifies this`lengthLow, this`lengthHigh, this`corrupted
      ensures Length() == (old(Length()) + length) % 0x1_0000_0000_0000_0000
      ensures overflow == corrupted == (old(Length()) + length >= 0x1_0000_0000_0000_0000)
    {
      var temp := lengthLow;
      lengthLow := (lengthLow + length) % 0x1_0000_0000;
      corrupted := false;
      if lengthLow < temp {
        lengthHigh := (lengthHigh + 1) % 0x1_0000_0000;
        corrupted := lengthHigh == 0;
      }
      overflow := corrupted;
    }

    /** One turn of the loop of Input. */
    method InputByte(x: byte)
      requires Valid() && session.Feeding?
      modifies this, intermediateHash, messageBlock
      ensures Valid() && session == Fed(old(session), [x])
    {
      hide Fold, BytesBits, Compress, ByteWords, IsFinished;
      ghost var m := session.message;
      IndexOfNext(|m|);
      LengthOfNext(|m|);
      messageBlock[messageBlockIndex] := x;
      messageBlockIndex := messageBlockIndex + 1;
      assert messageBlock[..messageBlockIndex] == (m + [x])[|m| + 1 - messageBlockIndex..];
      session := Fed(session, [x]);
      var overflow := AddLength(8);
      if !overflow && messageBlockIndex == BLOCK_SIZE {
        FoldFilled(m, [x], messageBlock[..]);
        ProcessMessageBlock();
        assert IsFeeding(m + [x]);
      } else if !overflow {
        FoldUnfinished(m, x);
        assert IsFeeding(m + [x]);
      }
      hide IsFeeding;
    }

    /** Feeds bytes until they run out or the length overflows. */
    method Input(messageArray: seq<byte>)
      requires Valid()
      modifies this, intermediateHash, messageBlock
      ensures Valid() && session == Fed(old(session), messageArray)
    {
      hide Valid;
      if computed || corrupted || |messageArray| == 0 {
        return;
      }
      var i := 0;
      while i < |messageArray| && !corrupted
        invariant 0 <= i <= |messageArray|
        invariant Valid() && !session.Finished?
        invariant session == Fed(old(session), messageArray[..i])
      {
        InputByte(messageArray[i]);
        assert messageArray[..i + 1] == messageArray[..i] + [messageArray[i]];
        i := i + 1;
      }
      assert messageArray[..|messageArray|] == messageArray;
    }

    // ----- finishing -----

    /** Zero bytes from the current index up to limit. */
    method FillZeros(limit: nat)
      requires Shape() && messageBlockIndex <= limit <= BLOCK_SIZE
      modifies this`messageBlockIndex, messageBlock
      ensures messageBlockIndex == limit
      ensures messageBlock[..limit]
           == old(messageBlock[..messageBlockIndex]) + ZeroBytes(limit - old(messageBlockIndex))
    {
      ghost var start := messageBlockIndex;
      while messageBlockIndex < limit
        invariant Shape() && start <= messageBlockIndex <= limit
        invariant messageBlock[..messageBlockIndex]
               == old(messageBlock[..messageBlockIndex]) + ZeroBytes(messageBlockIndex - start)
      {
        messageBlock[messageBlockIndex] := 0;
        messageBlockIndex := messageBlockIndex + 1;
      }
    }

    /** The length in the last eight bytes, most significant first. */
    method StoreLength()
      requires Shape()
      modifies messageBlock
      ensures messageBlock[..] == old(messageBlock[..56]) + NatBytes(Length(), LENGTH_BYTES)
    {
      hide Truncate, NatBytes;
      messageBlock[56] := Truncate(lengthHigh / 0x100_0000);
      messageBlock[57] := Truncate(lengthHigh / 0x1_0000);
      messageBlock[58] := Truncate(lengthHigh / 0x100);
      messageBlock[59] := Truncate(lengthHigh);
      assert messageBlock[..60] == old(messageBlock[..56]) + WordBytes(lengthHigh);
      messageBlock[60] := Truncate(lengthLow / 0x100_0000);
      messageBlock[61] := Truncate(lengthLow / 0x1_0000);
      messageBlock[62] := Truncate(lengthLow / 0x100);
      messageBlock[63] := Truncate(lengthLow);
      assert messageBlock[..] == messageBlock[..60] + WordBytes(lengthLow);
      LengthBytes(lengthHigh, lengthLow);
    }

    /** The buffer and the hash value hold message m; one or two blocks finish it. */
    ghost predicate Holds(m: seq<byte>)
      reads this, intermediateHash, messageBlock
    {
      && Shape() && messageBlockIndex == |m| % BLOCK_SIZE
      && messageBlock[..messageBlockIndex] == m[|m| - messageBlockIndex..]
      && intermediateHash[..] == Fold(H0, BytesBits(m))
    }

    /** The pad byte does not leave room for the length: it goes into a block of its own. */
    method SpillBlock(padByte: byte, ghost m: seq<byte>)
      requires Holds(m) && messageBlockIndex >= BLOCK_SIZE - 8
      modifies this`messageBlockIndex, this`blocksProcessed, intermediateHash, messageBlock
      ensures messageBlockIndex == 0 && blocksProcessed == old(blocksProcessed) + 1
      ensures intermediateHash[..] == Fold(H0, BytesBits(m + ([padByte] + ZeroBytes(63 - |m| % BLOCK_SIZE))))
    {
      hide Fold, BytesBits, Compress, ByteWords;
      ghost var last := m[|m| - messageBlockIndex..];
      ghost var rest := [padByte] + ZeroBytes(63 - messageBlockIndex);
      WholeAfter(|m|, |rest|);
      messageBlock[messageBlockIndex] := padByte;
      messageBlockIndex := messageBlockIndex + 1;
      assert messageBlock[..messageBlockIndex] == last + [padByte];
      FillZeros(BLOCK_SIZE);
      assert messageBlock[..] == messageBlock[..BLOCK_SIZE];
      assert messageBlock[..] == last + rest;
      FoldFilled(m, rest, messageBlock[..]);
      ProcessMessageBlock();
    }

    /** Zero bytes and the length complete the block, which holds the last bytes of m and then added. */
    method FinishBlock(ghost m: seq<byte>, ghost added: seq<byte>)
      requires Shape() && messageBlockIndex == |m| % BLOCK_SIZE + |added| <= BLOCK_SIZE - 8
      requires messageBlock[..messageBlockIndex] == m[|m| - |m| % BLOCK_SIZE..] + added
      requires intermediateHash[..] == Fold(H0, BytesBits(m))
      modifies this`messageBlockIndex, this`blocksProcessed, intermediateHash, messageBlock
      ensures messageBlockIndex == 0 && blocksProcessed == old(blocksProcessed) + 1
      ensures intermediateHash[..] == Fold(H0, BytesBits(m
              + (added + ZeroBytes(BLOCK_SIZE - 8 - old(messageBlockIndex)) + NatBytes(Length(), LENGTH_BYTES))))
    {
      hide Fold, BytesBits, Compress, ByteWords, NatBytes;
      ghost var rest := added + ZeroBytes(BLOCK_SIZE - 8 - messageBlockIndex) + NatBytes(Length(), LENGTH_BYTES);
      WholeAfter(|m|, |rest|);
      FillZeros(BLOCK_SIZE - 8);
      StoreLength();
      assert messageBlock[..] == m[|m| - |m| % BLOCK_SIZE..] + rest;
      FoldFilled(m, rest, messageBlock[..]);
      ProcessMessageBlock();
    }

    method PadMessage(padByte: byte, ghost m: seq<byte>)
      requires Holds(m)
      modifies this`messageBlockIndex, this`blocksProcessed, intermediateHash, messageBlock
      ensures messageBlockIndex == 0
      ensures intermediateHash[..] == Fold(H0, BytesBits(m + PadTail(|m| % BLOCK_SIZE, padByte, Length())))
      ensures blocksProcessed == old(blocksProcessed) + (|m| % BLOCK_SIZE + 8) / BLOCK_SIZE + 1
    {
      hide Fold, BytesBits, NatBytes;
      ghost var index := messageBlockIndex;
      ghost var length := NatBytes(Length(), LENGTH_BYTES);
      if messageBlockIndex >= BLOCK_SIZE - 8 {
        SpillBlock(padByte, m);
        ghost var rest := [padByte] + ZeroBytes(63 - index);
        FinishBlock(m + rest, []);
        assert m + rest + ([] + ZeroBytes(56) + length) == m + PadTail(index, padByte, Length());
      } else {
        messageBlock[messageBlockIndex] := padByte;
        messageBlockIndex := messageBlockIndex + 1;
        FinishBlock(m, [padByte]);
      }
    }

    /** Finishes the bit string that is the bytes fed and then tail, whose length is already counted. */
    method Finalize(padByte: byte, ghost m: seq<byte>, ghost tail: seq<bool>)
      requires Holds(m) && !corrupted
      requires |m| < TOO_LONG && |tail| < 8 && MarksEnd(padByte, tail) && Length() == 8 * |m| + |tail|
      requires blocksProcessed == |m| / BLOCK_SIZE
      modifies this, intermediateHash, messageBlock
      ensures Valid() && session == Finished(BytesBits(m) + tail)
    {
      hide Fold, BytesBits, NatBytes, MarksEnd, PadTail, Pad;
      PadMessage(padByte, m);
      PaddedIsFips(m, tail, padByte);
      PaddedBlocks(m, tail);
      var i := 0;
      while i < BLOCK_SIZE
        invariant 0 <= i <= BLOCK_SIZE
        invariant forall j :: 0 <= j < i ==> messageBlock[j] == 0
        modifies messageBlock
      {
        messageBlock[i] := 0;
        i := i + 1;
      }
      lengthLow := 0;
      lengthHigh := 0;
      computed := true;
      session := Finished(BytesBits(m) + tail);
    }

    /** The last, partial byte of the message: the top length bits of messageBits. */
    method FinalBits(messageBits: byte, length: nat)
      requires Valid()
      modifies this, intermediateHash, messageBlock
      ensures Valid() && session == Ended(old(session), messageBits, length)
      ensures corrupted <==> old(corrupted) || (length > 0 && (old(computed) || length >= 8))
      ensures !corrupted ==> computed == (old(computed) || length > 0)
    {
      hide Fold, BytesBits, ByteBits, MarksEnd, IsFinished;
      if length == 0 {
        return;
      }
      if computed || length >= 8 {
        corrupted := true;
      }
      if corrupted {
        session := Corrupted;
        return;
      }
      ghost var m := session.message;
      LengthOfBits(|m|, length);
      var overflow := AddLength(length);
      assert !overflow && Holds(m);
      PartialByteMark(messageBits, length);
      Finalize((messageBits & MASKS[length]) | MARKBITS[length], m, ByteBits(messageBits)[..length]);
    }

    /** The hash value as thirty-two bytes, each word most significant byte first. */
    method WriteDigest(digest: array<byte>)
      requires Shape() && digest.Length >= HASH_SIZE
      modifies digest
      ensures Words(BytesBits(digest[..HASH_SIZE])) == intermediateHash[..]
      ensures digest[HASH_SIZE..] == old(digest[HASH_SIZE..])
    {
      hide BigEndian, LowByte, Words, BytesBits;
      var i := 0;
      while i < 8
        invariant 0 <= i <= 8
        invariant forall j :: 0 <= j < i ==>
          BigEndian(digest[4 * j], digest[4 * j + 1], digest[4 * j + 2], digest[4 * j + 3]) == intermediateHash[j]
        invariant digest[HASH_SIZE..] == old(digest[HASH_SIZE..])
      {
        var w := intermediateHash[i];
        digest[4 * i] := LowByte(w >> 24);
        digest[4 * i + 1] := LowByte(w >> 16);
        digest[4 * i + 2] := LowByte(w >> 8);
        digest[4 * i + 3] := LowByte(w);
        BytesOfWord(w);
        i := i + 1;
      }
      DigestParses(digest[..HASH_SIZE], intermediateHash[..]);
    }

    /** Finishes the message if it is still being fed, then writes its digest. */
    method Result(digest: array<byte>)
      requires Valid() && digest.Length >= HASH_SIZE && digest != messageBlock
      modifies this, intermediateHash, messageBlock, digest
      ensures Valid() && session == Asked(old(session))
      ensures session.Finished? ==>
                && IsDigest(BytesBits(digest[..HASH_SIZE]), session.bits)
                && digest[HASH_SIZE..] == old(digest[HASH_SIZE..])
      ensures session.Corrupted? ==> digest[..] == old(digest[..])
      ensures !session.Feeding?
    {
      if corrupted {
        return;
      }
      if !computed {
        WholeBytesMark();
        Finalize(0x80, session.message, []);
      }
      WriteDigest(digest);
    }
  }
  /** Hashes one byte string; a string too long for the standard leaves the digest as it was. */
  method HashBytes(s: seq<byte>, digest: array<byte>)
    requires digest.Length >= HASH_SIZE
    modifies digest
    ensures digest[HASH_SIZE..] == old(digest[HASH_SIZE..])
    ensures |s| < TOO_LONG ==> IsDigest(BytesBits(digest[..HASH_SIZE]), BytesBits(s))
    ensures |s| >= TOO_LONG ==> digest[..] == old(digest[..])
  {
    hide BytesBits, IsDigest;
    var ctx := new Sha256();
    ctx.Input(s);
    assert [] + s == s;
    ctx.Result(digest);
  }
}
