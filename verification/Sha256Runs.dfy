/**
  Whole runs of one hasher object: any list of calls, from any state.
 */
module Sha256Runs {
  import opened Bits
  import opened Fips180
  import opened Sha256Block
  import opened Sha256Context

  datatype Call =
    | InputCall(data: seq<byte>)
    | FinalBitsCall(messageBits: byte, length: nat)
    | ResultCall
    | ResetCall

  function Step(s: Session, c: Call): Session {
    match c
    case InputCall(data) => Fed(s, data)
    case FinalBitsCall(b, k) => Ended(s, b, k)
    case ResultCall => Asked(s)
    case ResetCall => Feeding([])
  }

  function Run(s: Session, calls: seq<Call>): Session
    decreases calls
  {
    if calls == [] then s else Run(Step(s, calls[0]), calls[1..])
  }

  /** What a digest buffer shows: what it held before, or the digest of a bit string. */
  datatype Output = Untouched | DigestOf(bits: seq<bool>)

  function Shown(s: Session, o: Output, c: Call): Output {
    if c.ResultCall? && Asked(s).Finished? then DigestOf(Asked(s).bits) else o
  }

  function Outcome(s: Session, o: Output, calls: seq<Call>): Output
    decreases calls
  {
    if calls == [] then o else Outcome(Step(s, calls[0]), Shown(s, o, calls[0]), calls[1..])
  }

  ghost predicate Shows(before: seq<byte>, after: seq<byte>, o: Output)
    requires |before| == |after| >= HASH_SIZE
  {
    match o
    case Untouched => after == before
    case DigestOf(bits) => IsDigest(BytesBits(after[..HASH_SIZE]), bits) && after[HASH_SIZE..] == before[HASH_SIZE..]
  }

  lemma ShowsNext(before: seq<byte>, middle: seq<byte>, after: seq<byte>, s: Session, o: Output)
    requires |before| == |middle| == |after| >= HASH_SIZE
    requires Shows(before, middle, o)
    requires Asked(s).Finished? ==>
               IsDigest(BytesBits(after[..HASH_SIZE]), Asked(s).bits) && after[HASH_SIZE..] == middle[HASH_SIZE..]
    requires !Asked(s).Finished? ==> after == middle
    ensures Shows(before, after, Shown(s, o, ResultCall))
  {
    hide IsDigest, BytesBits, Asked;
  }

  /** One call: the session takes one step, and the buffer shows what it should. */
  method PerformOne(ctx: Sha256, c: Call, digest: array<byte>, ghost before: seq<byte>, ghost o: Output)
    requires ctx.Valid() && digest.Length == |before| >= HASH_SIZE && digest != ctx.messageBlock
    requires Shows(before, digest[..], o)
    modifies ctx, ctx.intermediateHash, ctx.messageBlock, digest
    ensures ctx.Valid() && ctx.session == Step(old(ctx.session), c)
    ensures Shows(before, digest[..], Shown(old(ctx.session), o, c))
  {
    hide Sha256.Valid, IsDigest, BytesBits, Fed, Ended, Asked, Shows;
    match c {
      case InputCall(data) => ctx.Input(data);
      case FinalBitsCall(b, k) => ctx.FinalBits(b, k);
      case ResultCall =>
        ghost var s := ctx.session;
        ctx.Result(digest);
        ShowsNext(before, old(digest[..]), digest[..], s, o);
      case ResetCall => ctx.Reset();
    }
  }

  /**
    Driving an object through any list of calls takes its session along Run, and the buffer ends
    with the standard's digest of the bits that were finished at the last call that wrote one.
   */
  method Perform(ctx: Sha256, calls: seq<Call>, digest: array<byte>)
    requires ctx.Valid() && digest.Length >= HASH_SIZE && digest != ctx.messageBlock
    modifies ctx, ctx.intermediateHash, ctx.messageBlock, digest
    ensures ctx.Valid() && ctx.session == Run(old(ctx.session), calls)
    ensures Shows(old(digest[..]), digest[..], Outcome(old(ctx.session), Untouched, calls))
  {
    hide Sha256.Valid, Step, Shown, IsDigest, BytesBits;
    ghost var before, o := digest[..], Untouched;
    var i := 0;
    while i < |calls|
      invariant 0 <= i <= |calls|
      invariant ctx.Valid()
      invariant Shows(before, digest[..], o)
      invariant Run(ctx.session, calls[i..]) == Run(old(ctx.session), calls)
      invariant Outcome(ctx.session, o, calls[i..]) == Outcome(old(ctx.session), Untouched, calls)
    {
      hide Shows;
      ghost var s := ctx.session;
      assert calls[i..][0] == calls[i] && calls[i..][1..] == calls[i + 1..];
      PerformOne(ctx, calls[i], digest, before, o);
      o := Shown(s, o, calls[i]);
      i := i + 1;
    }
  }

  lemma RunOne(s: Session, c: Call)
    ensures Run(s, [c]) == Step(s, c)
  {
    assert [c][1..] == [];
  }

  lemma RunTwo(s: Session, c: Call, d: Call)
    ensures Run(s, [c, d]) == Step(Step(s, c), d)
  {
    assert [c, d][1..] == [d];
    RunOne(Step(s, c), d);
  }

  lemma {:induction false} RunConcat(s: Session, a: seq<Call>, b: seq<Call>)
    ensures Run(s, a + b) == Run(Run(s, a), b)
    decreases a
  {
    if a == [] {
      assert a + b == b;
    } else {
      assert (a + b)[1..] == a[1..] + b;
      RunConcat(Step(s, a[0]), a[1..], b);
    }
  }

  lemma {:induction false} OutcomeConcat(s: Session, o: Output, a: seq<Call>, b: seq<Call>)
    ensures Outcome(s, o, a + b) == Outcome(Run(s, a), Outcome(s, o, a), b)
    decreases a
  {
    if a == [] {
      assert a + b == b;
    } else {
      hide Step, Shown;
      assert (a + b)[1..] == a[1..] + b;
      OutcomeConcat(Step(s, a[0]), Shown(s, o, a[0]), a[1..], b);
    }
  }

  lemma OutcomeOne(s: Session, o: Output, c: Call)
    ensures Outcome(s, o, [c]) == Shown(s, o, c)
  {
    assert [c][1..] == [];
  }

  lemma OutcomeTwo(s: Session, o: Output, c: Call, d: Call)
    ensures Outcome(s, o, [c, d]) == Shown(Step(s, c), Shown(s, o, c), d)
  {
    hide Step, Shown;
    assert [c, d][1..] == [d];
    OutcomeOne(Step(s, c), Shown(s, o, c), d);
  }

  /** Cutting one input call in two, anywhere in any run, changes nothing. */
  lemma SplitInput(s: Session, before: seq<Call>, a: seq<byte>, b: seq<byte>, after: seq<Call>)
    ensures Run(s, before + [InputCall(a), InputCall(b)] + after) == Run(s, before + [InputCall(a + b)] + after)
  {
    var s1 := Run(s, before);
    RunConcat(s, before + [InputCall(a), InputCall(b)], after);
    RunConcat(s, before, [InputCall(a), InputCall(b)]);
    RunConcat(s, before + [InputCall(a + b)], after);
    RunConcat(s, before, [InputCall(a + b)]);
    RunTwo(s1, InputCall(a), InputCall(b));
    RunOne(s1, InputCall(a + b));
    if s1.Feeding? {
      assert s1.message + a + b == s1.message + (a + b);
    }
  }

  function Flatten(chunks: seq<seq<byte>>): seq<byte> {
    if chunks == [] then [] else chunks[0] + Flatten(chunks[1..])
  }

  function Inputs(chunks: seq<seq<byte>>): seq<Call> {
    if chunks == [] then [] else [InputCall(chunks[0])] + Inputs(chunks[1..])
  }

  lemma FlattenNothing(chunks: seq<seq<byte>>)
    ensures chunks == [] ==> Flatten(chunks) == []
    ensures [] + Flatten(chunks) == Flatten(chunks)
  {
  }

  lemma {:induction false} FeedChunks(s: Session, chunks: seq<seq<byte>>)
    ensures Run(s, Inputs(chunks)) == if chunks == [] then s else Fed(s, Flatten(chunks))
    decreases chunks
  {
    if chunks != [] {
      var calls := Inputs(chunks);
      assert calls[1..] == Inputs(chunks[1..]);
      FeedChunks(Fed(s, chunks[0]), chunks[1..]);
      if s.Feeding? {
        assert s.message + chunks[0] + Flatten(chunks[1..]) == s.message + Flatten(chunks);
      }
    }
  }

  lemma {:induction false} InputsWriteNothing(s: Session, o: Output, chunks: seq<seq<byte>>)
    ensures Outcome(s, o, Inputs(chunks)) == o
    decreases chunks
  {
    if chunks != [] {
      assert Inputs(chunks)[1..] == Inputs(chunks[1..]);
      InputsWriteNothing(Fed(s, chunks[0]), o, chunks[1..]);
    }
  }

  /**
    A fresh object fed a message in any pieces and then asked is finished with exactly that
    message if it is shorter than 2^61 bytes, and gives no digest otherwise.
   */
  lemma AnySplitFinishes(chunks: seq<seq<byte>>)
    ensures Run(Feeding([]), Inputs(chunks) + [ResultCall])
         == if |Flatten(chunks)| < TOO_LONG then Finished(BytesBits(Flatten(chunks))) else Corrupted
    ensures Outcome(Feeding([]), Untouched, Inputs(chunks) + [ResultCall])
         == if |Flatten(chunks)| < TOO_LONG then DigestOf(BytesBits(Flatten(chunks))) else Untouched
  {
    hide BytesBits, Run, Outcome, Inputs, Flatten;
    FeedChunks(Feeding([]), chunks);
    InputsWriteNothing(Feeding([]), Untouched, chunks);
    RunConcat(Feeding([]), Inputs(chunks), [ResultCall]);
    OutcomeConcat(Feeding([]), Untouched, Inputs(chunks), [ResultCall]);
    FlattenNothing(chunks);
    var s := Run(Feeding([]), Inputs(chunks));
    RunOne(s, ResultCall);
    OutcomeOne(s, Untouched, ResultCall);
  }

  /** The same, with the top k bits of a last byte after the message. */
  lemma AnySplitFinishesBits(chunks: seq<seq<byte>>, b: byte, k: nat)
    requires 0 < k < 8
    ensures Run(Feeding([]), Inputs(chunks) + [FinalBitsCall(b, k), ResultCall])
         == if |Flatten(chunks)| < TOO_LONG then Finished(BytesBits(Flatten(chunks)) + ByteBits(b)[..k]) else Corrupted
    ensures Outcome(Feeding([]), Untouched, Inputs(chunks) + [FinalBitsCall(b, k), ResultCall])
         == if |Flatten(chunks)| < TOO_LONG then DigestOf(BytesBits(Flatten(chunks)) + ByteBits(b)[..k]) else Untouched
  {
    hide BytesBits, ByteBits, Run, Outcome, Inputs, Flatten;
    var last := [FinalBitsCall(b, k), ResultCall];
    FeedChunks(Feeding([]), chunks);
    InputsWriteNothing(Feeding([]), Untouched, chunks);
    RunConcat(Feeding([]), Inputs(chunks), last);
    OutcomeConcat(Feeding([]), Untouched, Inputs(chunks), last);
    FlattenNothing(chunks);
    var s := Run(Feeding([]), Inputs(chunks));
    RunTwo(s, FinalBitsCall(b, k), ResultCall);
    OutcomeTwo(s, Untouched, FinalBitsCall(b, k), ResultCall);
  }

  /**
    A finished object keeps its bit string through any inputs, results and empty final bits, and
    each result among them writes the one digest again.
   */
  lemma {:induction false} FinishedStays(bits: seq<bool>, o: Output, calls: seq<Call>)
    requires forall c :: c in calls ==> c.InputCall? || c.ResultCall? || (c.FinalBitsCall? && c.length == 0)
    ensures Run(Finished(bits), calls) == Finished(bits)
    ensures Outcome(Finished(bits), o, calls) == if ResultCall in calls then DigestOf(bits) else o
    decreases calls
  {
    if calls != [] {
      assert calls[0] in calls && calls == [calls[0]] + calls[1..];
      FinishedStays(bits, if calls[0].ResultCall? then DigestOf(bits) else o, calls[1..]);
    }
  }

  /** A corrupted object stays so, and writes nothing, through any calls but reset. */
  lemma {:induction false} CorruptedStays(o: Output, calls: seq<Call>)
    requires forall c :: c in calls ==> !c.ResetCall?
    ensures Run(Corrupted, calls) == Corrupted
    ensures Outcome(Corrupted, o, calls) == o
  {
    if calls != [] {
      assert calls[0] in calls;
      CorruptedStays(o, calls[1..]);
    }
  }

  /**
    Final bits that come when the object is finished, or are too many, corrupt it until a reset,
    and nothing is written.
   */
  lemma WrongBitsCorrupt(s: Session, o: Output, b: byte, k: nat, calls: seq<Call>)
    requires k > 0 && (s.Finished? || k >= 8)
    requires forall c :: c in calls ==> !c.ResetCall?
    ensures Run(s, [FinalBitsCall(b, k)] + calls) == Corrupted
    ensures Outcome(s, o, [FinalBitsCall(b, k)] + calls) == o
  {
    var all := [FinalBitsCall(b, k)] + calls;
    assert all[0] == FinalBitsCall(b, k) && all[1..] == calls;
    CorruptedStays(o, calls);
  }

  /** In a whole run: a message in any pieces, its result, one more bit or more, a second result. */
  lemma BitsAfterResult(chunks: seq<seq<byte>>, b: byte, k: nat, calls: seq<Call>)
    requires k > 0 && forall c :: c in calls ==> !c.ResetCall?
    requires |Flatten(chunks)| < TOO_LONG
    ensures Run(Feeding([]), Inputs(chunks) + [ResultCall] + ([FinalBitsCall(b, k)] + calls)) == Corrupted
    ensures Outcome(Feeding([]), Untouched, Inputs(chunks) + [ResultCall] + ([FinalBitsCall(b, k)] + calls))
         == DigestOf(BytesBits(Flatten(chunks)))
  {
    hide Run, Outcome, BytesBits, Inputs, Flatten;
    var before, after := Inputs(chunks) + [ResultCall], [FinalBitsCall(b, k)] + calls;
    AnySplitFinishes(chunks);
    RunConcat(Feeding([]), before, after);
    OutcomeConcat(Feeding([]), Untouched, before, after);
    WrongBitsCorrupt(Run(Feeding([]), before), Outcome(Feeding([]), Untouched, before), b, k, calls);
  }

  /** In a whole run: a message in any pieces, then eight bits or more at once. */
  lemma TooManyBits(chunks: seq<seq<byte>>, b: byte, k: nat, calls: seq<Call>)
    requires k >= 8 && forall c :: c in calls ==> !c.ResetCall?
    ensures Run(Feeding([]), Inputs(chunks) + ([FinalBitsCall(b, k)] + calls)) == Corrupted
    ensures Outcome(Feeding([]), Untouched, Inputs(chunks) + ([FinalBitsCall(b, k)] + calls)) == Untouched
  {
    hide Run, Outcome, Inputs;
    var after := [FinalBitsCall(b, k)] + calls;
    RunConcat(Feeding([]), Inputs(chunks), after);
    OutcomeConcat(Feeding([]), Untouched, Inputs(chunks), after);
    InputsWriteNothing(Feeding([]), Untouched, chunks);
    WrongBitsCorrupt(Run(Feeding([]), Inputs(chunks)), Untouched, b, k, calls);
  }

  /** Final bits of length 0 may be left out anywhere in any run. */
  lemma NoBitsChangeNothing(s: Session, o: Output, before: seq<Call>, b: byte, after: seq<Call>)
    ensures Run(s, before + [FinalBitsCall(b, 0)] + after) == Run(s, before + after)
    ensures Outcome(s, o, before + [FinalBitsCall(b, 0)] + after) == Outcome(s, o, before + after)
  {
    var none := [FinalBitsCall(b, 0)];
    RunConcat(s, before + none, after);
    RunConcat(s, before, none);
    RunConcat(s, before, after);
    RunOne(Run(s, before), FinalBitsCall(b, 0));
    OutcomeConcat(s, o, before + none, after);
    OutcomeConcat(s, o, before, none);
    OutcomeConcat(s, o, before, after);
    OutcomeOne(Run(s, before), Outcome(s, o, before), FinalBitsCall(b, 0));
  }

  /** Nothing before a reset matters to what follows it. */
  lemma ResetForgets(s: Session, before: seq<Call>, after: seq<Call>)
    ensures Run(s, before + [ResetCall] + after) == Run(Feeding([]), after)
  {
    RunConcat(s, before + [ResetCall], after);
    RunConcat(s, before, [ResetCall]);
    RunOne(Run(s, before), ResetCall);
  }

  // ----- one digest for each bit string -----

  lemma BytesOfBigEndian(b0: byte, b1: byte, b2: byte, b3: byte)
    ensures LowByte(BigEndian(b0, b1, b2, b3) >> 24) == b0
    ensures LowByte(BigEndian(b0, b1, b2, b3) >> 16) == b1
    ensures LowByte(BigEndian(b0, b1, b2, b3) >> 8) == b2
    ensures LowByte(BigEndian(b0, b1, b2, b3)) == b3
  {
    assert (((((b0 as word) << 24) | ((b1 as word) << 16) | ((b2 as word) << 8) | (b3 as word)) >> 24) & 0xFF) as byte
        == b0;
    assert (((((b0 as word) << 24) | ((b1 as word) << 16) | ((b2 as word) << 8) | (b3 as word)) >> 16) & 0xFF) as byte
        == b1;
    assert (((((b0 as word) << 24) | ((b1 as word) << 16) | ((b2 as word) << 8) | (b3 as word)) >> 8) & 0xFF) as byte
        == b2;
    assert ((((b0 as word) << 24) | ((b1 as word) << 16) | ((b2 as word) << 8) | (b3 as word)) & 0xFF) as byte == b3;
  }

  lemma {:induction false} ByteWordsInjective(a: seq<byte>, b: seq<byte>)
    requires |a| == |b| && |a| % 4 == 0 && ByteWords(a) == ByteWords(b)
    ensures a == b
  {
    if |a| >= 4 {
      hide BigEndian, LowByte;
      var v, w := BigEndian(a[0], a[1], a[2], a[3]), BigEndian(b[0], b[1], b[2], b[3]);
      assert v == ByteWords(a)[0] == ByteWords(b)[0] == w;
      BytesOfBigEndian(a[0], a[1], a[2], a[3]);
      BytesOfBigEndian(b[0], b[1], b[2], b[3]);
      assert ByteWords(a)[1..] == ByteWords(a[4..]) && ByteWords(b)[1..] == ByteWords(b[4..]);
      ByteWordsInjective(a[4..], b[4..]);
      assert a == a[..4] + a[4..] && b == b[..4] + b[4..];
    }
  }

  lemma WordsInjective(d: seq<bool>, e: seq<bool>)
    requires |d| == |e| && |d| % 32 == 0 && Words(d) == Words(e)
    ensures d == e
  {
    hide ToBytes, ByteWords;
    ByteWordsInjective(ToBytes(d), ToBytes(e));
    BytesBitsToBytes(d);
    BytesBitsToBytes(e);
    assert d[..|d|] == d && e[..|e|] == e;
  }

  /** A message has one digest only: whatever the object writes is the standard's. */
  lemma DigestIsUnique(d: seq<bool>, e: seq<bool>, m: seq<bool>)
    requires IsDigest(d, m) && IsDigest(e, m)
    ensures d == e
  {
    hide Words, Hash;
    WordsInjective(d, e);
  }
}
