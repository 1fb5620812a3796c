/**
  What the codec computes, as regroupings of a bit string: bytes are groups of eight bits, sextets
  groups of six. The encoder follows RFC 4648 section 4 but for the character of sextet 63.
 */
module Base64Spec {
  import opened Bits
  import opened Base64Tables

  // ----- six-bit groups -----

  function SextetBits(v: byte): (r: seq<bool>)
    ensures |r| == 6
  {
    [v & 0x20 != 0, v & 0x10 != 0, v & 0x08 != 0, v & 0x04 != 0, v & 0x02 != 0, v & 0x01 != 0]
  }

  function SextetsBits(vs: seq<byte>): (r: seq<bool>)
    ensures |r| == 6 * |vs|
  {
    if vs == [] then [] else SextetBits(vs[0]) + SextetsBits(vs[1..])
  }

  function Pack6(s: seq<bool>): byte
    requires |s| == 6
  {
    Bit(s[0], 0x20) | Bit(s[1], 0x10) | Bit(s[2], 0x08) | Bit(s[3], 0x04) | Bit(s[4], 0x02) | Bit(s[5], 0x01)
  }

  predicate IsSextets(vs: seq<byte>) {
    forall i :: 0 <= i < |vs| ==> vs[i] < 64
  }

  lemma Pack6Range(s: seq<bool>)
    requires |s| == 6
    ensures Pack6(s) < 64
  {
  }

  /** The whole six-bit groups of a bit string. */
  function ToSextets(s: seq<bool>): (r: seq<byte>)
    ensures |r| == |s| / 6
  {
    if |s| < 6 then [] else [Pack6(s[..6])] + ToSextets(s[6..])
  }

  lemma {:induction false} ToSextetsRange(s: seq<bool>)
    ensures IsSextets(ToSextets(s))
  {
    if |s| >= 6 {
      hide Pack6;
      Pack6Range(s[..6]);
      ToSextetsRange(s[6..]);
    }
  }

  // ----- encoding -----

  function PadCount(n: nat): nat {
    (3 - n % 3) % 3
  }

  /** Zero bits that complete the last six-bit group of n bytes: two for each pad character. */
  function Fill(n: nat): nat {
    2 * PadCount(n)
  }

  /** The six-bit groups of a byte string, the last one filled up with zeros. */
  function Groups(b: seq<byte>): (r: seq<byte>)
    ensures IsSextets(r)
  {
    ToSextetsRange(BytesBits(b) + Zeros(Fill(|b|)));
    ToSextets(BytesBits(b) + Zeros(Fill(|b|)))
  }

  function Chars(vs: seq<byte>): (r: string)
    requires IsSextets(vs)
    ensures |r| == |vs|
  {
    if vs == [] then [] else [EncChar(vs[0])] + Chars(vs[1..])
  }

  function Pads(n: nat): (r: string)
    ensures |r| == n
    ensures forall i :: 0 <= i < n ==> r[i] == PAD
  {
    seq(n, i => PAD)
  }

  function Encode(b: seq<byte>): string {
    Chars(Groups(b)) + Pads(PadCount(|b|))
  }

  // ----- decoding -----

  predicate IsAsciiChar(c: char) {
    c as int < 128
  }

  predicate IsAscii(s: string) {
    forall i :: 0 <= i < |s| ==> IsAsciiChar(s[i])
  }

  /**
    The sextets the decoder accepts from s, when it has accepted k before: characters outside the
    alphabet are passed over, but a pad character ends the input if k is 2 or 3 modulo 4.
   */
  function Accepted(s: string, k: nat): seq<byte>
    requires IsAscii(s)
    decreases s
  {
    if s == [] then []
    else if s[0] == PAD && k % 4 >= 2 then []
    else if DecValue(s[0]) == SKIP then Accepted(s[1..], k)
    else [DecValue(s[0])] + Accepted(s[1..], k + 1)
  }

  /** The whole bytes in a list of sextets. */
  function Octets(vs: seq<byte>): seq<byte> {
    ToBytes(SextetsBits(vs))
  }

  function Decode(s: string): seq<byte>
    requires IsAscii(s)
  {
    Octets(Accepted(s, 0))
  }
}
