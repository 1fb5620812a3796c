/**
  Encoding against decoding: exactly when one undoes the other, and what is true always.
 */
module Base64Theorems {
  import opened Bits
  import opened Base64Tables
  import opened Base64Spec
  import opened Base64Bits
  import opened Base64Encode

  // ----- the shape of the output -----

  lemma BitCount(n: nat)
    ensures 8 * n + Fill(n) == 24 * ((n + 2) / 3) - 6 * PadCount(n)
  {
    var q, r := n / 3, n % 3;
    assert n == 3 * q + r;
  }

  lemma FillIsShort(n: nat)
    ensures Fill(n) <= 4
  {
  }

  lemma SixDivides(q: nat, n: nat)
    requires n == 6 * q
    ensures n % 6 == 0
  {
  }

  lemma WholeSextets(n: nat)
    ensures Fill(n) < 8 && (8 * n + Fill(n)) % 6 == 0
  {
    BitCount(n);
    FillIsShort(n);
    hide Fill, PadCount;
    SixDivides(4 * ((n + 2) / 3) - PadCount(n), 8 * n + Fill(n));
  }

  lemma GroupCount(b: seq<byte>)
    ensures |Groups(b)| + PadCount(|b|) == 4 * ((|b| + 2) / 3)
    ensures 6 * |Groups(b)| == 8 * |b| + Fill(|b|)
  {
    hide ToSextets, BytesBits, IsSextets, PadCount;
    BitCount(|b|);
  }

  /** Four characters for each three bytes begun, pad characters only and exactly at the end. */
  lemma EncodedShape(b: seq<byte>)
    ensures |Encode(b)| == 4 * ((|b| + 2) / 3)
    ensures forall i :: 0 <= i < |Encode(b)| ==> (Encode(b)[i] == PAD <==> i >= |Encode(b)| - PadCount(|b|))
  {
    hide Groups, Chars, EncChar;
    GroupCount(b);
    var vs := Groups(b);
    forall i | 0 <= i < |vs| ensures Chars(vs)[i] != PAD {
      CharAt(vs, i);
      EncCharIsNotPad(vs[i]);
    }
  }

  lemma {:induction false} CharAt(vs: seq<byte>, i: nat)
    requires IsSextets(vs) && i < |vs|
    ensures Chars(vs)[i] == EncChar(vs[i])
  {
    if i > 0 {
      CharAt(vs[1..], i - 1);
    }
  }

  /** Only 63 is written as a character that the decoder skips. */
  lemma EncCharIsNotPad(v: byte)
    requires v < 64
    ensures EncChar(v) != PAD && IsAsciiChar(EncChar(v))
    ensures EncChar(v) == ENCODED_63 <==> v == 63
  {
    hide EncChar, DecValue;
    DecodeChar(v);
    PadIsSkipped();
    SkipIsNoSextet(v);
  }

  lemma SkipIsNoSextet(v: byte)
    requires v < 64
    ensures v != SKIP
  {
  }

  lemma FilledIsWhole(b: seq<byte>)
    ensures |BytesBits(b) + Zeros(Fill(|b|))| % 6 == 0 && Fill(|b|) < 8
  {
    hide BytesBits, Fill;
    WholeSextets(|b|);
  }

  /** The encoder's six-bit groups by bits: those of b, and then zeros. */
  lemma EncodedBits(b: seq<byte>)
    ensures SextetsBits(Groups(b)) == BytesBits(b) + Zeros(Fill(|b|))
  {
    FilledIsWhole(b);
    hide ToSextets, SextetsBits, BytesBits, Fill, IsSextets;
    SextetsBitsToSextets(BytesBits(b) + Zeros(Fill(|b|)));
  }

  /** The text is one character for each group, in the order A-Z, a-z, 0-9, '+', '_', and then pads. */
  lemma EncodedCharacters(b: seq<byte>)
    ensures |Encode(b)| == |Groups(b)| + PadCount(|b|)
    ensures forall i :: 0 <= i < |Groups(b)| ==> Encode(b)[i] as int == CodeOf(Groups(b)[i] as int)
    ensures forall i :: |Groups(b)| <= i < |Encode(b)| ==> Encode(b)[i] == PAD
  {
    hide Groups, Chars, EncChar, CodeOf, PadCount;
    var vs := Groups(b);
    forall i | 0 <= i < |vs| ensures Encode(b)[i] as int == CodeOf(vs[i] as int) {
      CharAt(vs, i);
      EncoderAlphabet(vs[i]);
    }
  }

  /** The decoded bytes by bits: those of the accepted sextets, but for fewer than eight at the end. */
  lemma DecodedBits(s: string)
    requires IsAscii(s)
    ensures 8 * |Decode(s)| <= 6 * |Accepted(s, 0)| < 8 * |Decode(s)| + 8
    ensures BytesBits(Decode(s)) == SextetsBits(Accepted(s, 0))[..8 * |Decode(s)|]
  {
    hide Accepted, SextetsBits, BytesBits, ToBytes;
    BytesBitsToBytes(SextetsBits(Accepted(s, 0)));
  }

  // ----- decoding what was encoded -----

  /** The sextets the decoder's table knows how to read back. */
  function Without63(vs: seq<byte>): (r: seq<byte>)
    ensures |r| <= |vs|
    ensures |r| == |vs| <==> 63 !in vs
    ensures 63 !in vs ==> r == vs
  {
    if vs == [] then []
    else if vs[0] == 63 then Without63(vs[1..])
    else [vs[0]] + Without63(vs[1..])
  }

  lemma {:induction false} PadsAreSkipped(n: nat, k: nat)
    ensures IsAscii(Pads(n)) && Accepted(Pads(n), k) == []
    decreases n
  {
    PadIsSkipped();
    if n > 0 {
      assert Pads(n)[1..] == Pads(n - 1);
      PadsAreSkipped(n - 1, k);
    }
  }

  lemma AcceptedCons(c: char, s: string, k: nat)
    requires IsAscii(s) && IsAsciiChar(c) && c != PAD
    ensures IsAscii([c] + s)
    ensures Accepted([c] + s, k) == if DecValue(c) == SKIP then Accepted(s, k) else [DecValue(c)] + Accepted(s, k + 1)
  {
    hide DecValue;
    assert ([c] + s)[1..] == s;
  }

  lemma {:induction false} AcceptedChars(vs: seq<byte>, n: nat, k: nat)
    requires IsSextets(vs)
    ensures IsAscii(Chars(vs) + Pads(n))
    ensures Accepted(Chars(vs) + Pads(n), k) == Without63(vs)
    decreases vs
  {
    if vs == [] {
      assert Chars(vs) + Pads(n) == Pads(n);
      PadsAreSkipped(n, k);
    } else {
      hide EncChar, DecValue, Accepted;
      var text := Chars(vs[1..]) + Pads(n);
      assert Chars(vs) + Pads(n) == [EncChar(vs[0])] + text;
      DecodeChar(vs[0]);
      EncCharIsNotPad(vs[0]);
      SkipIsNoSextet(vs[0]);
      AcceptedChars(vs[1..], n, k);
      AcceptedChars(vs[1..], n, k + 1);
      AcceptedCons(EncChar(vs[0]), text, k);
    }
  }

  lemma EncodedIsAscii(b: seq<byte>)
    ensures IsAscii(Encode(b))
    ensures Accepted(Encode(b), 0) == Without63(Groups(b))
  {
    hide Groups, Chars;
    AcceptedChars(Groups(b), PadCount(|b|), 0);
  }

  lemma OctetsOfGroups(b: seq<byte>)
    ensures Octets(Groups(b)) == b
  {
    hide Groups, SextetsBits, BytesBits, ToBytes, Fill;
    EncodedBits(b);
    FilledIsWhole(b);
    ToBytesBytesBits(b, Zeros(Fill(|b|)));
  }

  /** A byte string some of whose six-bit groups are 63 loses bytes. */
  lemma DecodedIsShorter(b: seq<byte>)
    requires 63 in Groups(b)
    ensures IsAscii(Encode(b)) && |Decode(Encode(b))| < |b|
  {
    hide Groups, ToBytes, SextetsBits, Encode, Accepted, PadCount;
    EncodedIsAscii(b);
    GroupCount(b);
    FillIsShort(|b|);
    var d := Without63(Groups(b));
    assert 8 * |Octets(d)| <= 6 * |d| <= 6 * |Groups(b)| - 6 <= 8 * |b| - 2;
  }

  /** Decoding undoes encoding exactly when no six-bit group is 63, that is, no '_' was written. */
  lemma RoundTripIff(b: seq<byte>)
    ensures IsAscii(Encode(b))
    ensures Decode(Encode(b)) == b <==> 63 !in Groups(b)
    ensures ENCODED_63 in Encode(b) <==> 63 in Groups(b)
  {
    EncodedIsAscii(b);
    OctetsOfGroups(b);
    if 63 in Groups(b) {
      DecodedIsShorter(b);
    }
    UnderscoreIff(b);
  }

  lemma UnderscoreIff(b: seq<byte>)
    ensures ENCODED_63 in Encode(b) <==> 63 in Groups(b)
  {
    hide Groups, Chars, EncChar;
    var vs := Groups(b);
    forall i | 0 <= i < |vs| ensures Encode(b)[i] == ENCODED_63 <==> vs[i] == 63 {
      CharAt(vs, i);
      EncCharIsNotPad(vs[i]);
    }
    if 63 in vs {
      var i :| 0 <= i < |vs| && vs[i] == 63;
      assert Encode(b)[i] == ENCODED_63;
    }
  }

  /** The shortest loss: three bytes of ones come back as nothing. */
  lemma RoundTripFails()
    ensures Encode([0xFF, 0xFF, 0xFF]) == "____"
    ensures IsAscii("____") && Decode("____") == []
  {
    hide EncChar, DecValue;
    PadIsSkipped();
    EncodeThree(0xFF, 0xFF, 0xFF, 63, 63, 63, 63);
    assert Accepted("____", 0) == [];
  }

  // ----- decoding the standard's own output -----

  function StandardChar(c: char): char {
    if c == ENCODED_63 then '/' else c
  }

  /** The output RFC 4648 prescribes: the program's, with '/' for 63. */
  function Standard(s: string): (r: string)
    ensures |r| == |s|
  {
    seq(|s|, i requires 0 <= i < |s| => StandardChar(s[i]))
  }

  lemma StandardCons(c: char, s: string)
    ensures Standard([c] + s) == [StandardChar(c)] + Standard(s)
  {
  }

  lemma {:induction false} AcceptedStandard(vs: seq<byte>, n: nat, k: nat)
    requires IsSextets(vs)
    ensures IsAscii(Standard(Chars(vs) + Pads(n)))
    ensures Accepted(Standard(Chars(vs) + Pads(n)), k) == vs
    decreases vs
  {
    if vs == [] {
      assert Standard(Chars(vs) + Pads(n)) == Pads(n);
      PadsAreSkipped(n, k);
    } else {
      hide EncChar, DecValue, Accepted, Standard;
      var text := Chars(vs[1..]) + Pads(n);
      assert Chars(vs) + Pads(n) == [EncChar(vs[0])] + text;
      AcceptedStandard(vs[1..], n, k + 1);
      StandardCons(EncChar(vs[0]), text);
      StandardHead(vs[0], StandardChar(EncChar(vs[0])));
      AcceptedCons(StandardChar(EncChar(vs[0])), Standard(text), k);
    }
  }

  lemma StandardHead(v: byte, c: char)
    requires v < 64 && c == StandardChar(EncChar(v))
    ensures IsAsciiChar(c) && c != PAD && DecValue(c) == v && v != SKIP
  {
    hide EncChar, DecValue;
    PadIsSkipped();
    DecodeChar(v);
    EncCharIsNotPad(v);
    SkipIsNoSextet(v);
  }

  /** The decoder undoes the standard encoding of every byte string. */
  lemma DecodeStandard(b: seq<byte>)
    ensures IsAscii(Standard(Encode(b))) && Decode(Standard(Encode(b))) == b
  {
    hide Groups, Chars, Octets, Accepted;
    AcceptedStandard(Groups(b), PadCount(|b|), 0);
    OctetsOfGroups(b);
  }

  /** No two byte strings encode alike, whatever the decoder makes of the result. */
  lemma EncodeInjective(a: seq<byte>, b: seq<byte>)
    requires Encode(a) == Encode(b)
    ensures a == b
  {
    hide Encode, Decode;
    DecodeStandard(a);
    DecodeStandard(b);
  }

  // ----- characters the decoder passes over -----

  /** Neither a letter, a digit, '+' or '/', nor a pad. */
  predicate IsJunk(c: char) {
    IsAsciiChar(c) && c != PAD && !InAlphabet(c)
  }

  lemma {:induction false} AcceptedJunk(s: string, c: char, t: string, k: nat)
    requires IsAscii(s) && IsAscii(t) && IsAsciiChar(c) && c != PAD && DecValue(c) == SKIP
    ensures IsAscii(s + [c] + t) && IsAscii(s + t)
    ensures Accepted(s + [c] + t, k) == Accepted(s + t, k)
    decreases s
  {
    if s == [] {
      assert s + [c] + t == [c] + t && s + t == t;
      assert ([c] + t)[1..] == t;
    } else {
      hide DecValue;
      assert (s + [c] + t)[1..] == s[1..] + [c] + t && (s + t)[1..] == s[1..] + t;
      AcceptedJunk(s[1..], c, t, k);
      AcceptedJunk(s[1..], c, t, k + 1);
    }
  }

  /** A character outside the alphabet, other than a pad, may stand anywhere. */
  lemma JunkIsIgnored(s: string, c: char, t: string)
    requires IsAscii(s) && IsAscii(t) && IsJunk(c)
    ensures IsAscii(s + [c] + t) && IsAscii(s + t)
    ensures Decode(s + [c] + t) == Decode(s + t)
  {
    hide Octets, Accepted, DecValue, InAlphabet;
    DecoderAlphabet(c);
    AcceptedJunk(s, c, t, 0);
  }

  lemma PadFirst(t: string, k: nat)
    requires IsAscii(t)
    ensures IsAscii([PAD] + t)
    ensures Accepted([PAD] + t, k) == if k % 4 >= 2 then [] else Accepted(t, k)
    ensures Accepted("", k) == []
  {
    PadIsSkipped();
    assert ([PAD] + t)[1..] == t;
  }

  /** Without a pad character the flat rule runs on from one string to the next. */
  lemma {:induction false} AcceptedConcat(s: string, t: string, k: nat)
    requires IsAscii(s) && IsAscii(t) && PAD !in s
    ensures IsAscii(s + t)
    ensures Accepted(s + t, k) == Accepted(s, k) + Accepted(t, k + |Accepted(s, k)|)
    decreases s
  {
    hide DecValue;
    if s == [] {
      assert s + t == t;
    } else {
      assert (s + t)[1..] == s[1..] + t;
      AcceptedConcat(s[1..], t, k);
      AcceptedConcat(s[1..], t, k + 1);
    }
  }

  /** The first pad character ends the input if two or three sextets of a group stand open, else it is junk. */
  lemma PadRule(s: string, t: string)
    requires IsAscii(s) && IsAscii(t) && PAD !in s
    ensures IsAscii(s + [PAD] + t) && IsAscii(s + t)
    ensures Decode(s + [PAD] + t) == if |Accepted(s, 0)| % 4 >= 2 then Decode(s) else Decode(s + t)
  {
    hide Octets, Accepted;
    PadFirst(t, |Accepted(s, 0)|);
    AcceptedConcat(s, [PAD] + t, 0);
    AcceptedConcat(s, t, 0);
    assert s + [PAD] + t == s + ([PAD] + t);
    assert Accepted(s, 0) + [] == Accepted(s, 0);
  }
}
